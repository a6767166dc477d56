/**
 * The OpenWeatherMap adapter: the One Call request URL for a place, and the
 * mapping of the decoded One Call reply to normalized daily forecasts.
 */
module OpenWeatherMap {
  import opened Wrappers
  import opened Text
  import opened RpcTypes
  import opened Errors

  /** The part of the One Call reply the adapter reads. */
  datatype JsonReply = JsonReply(daily: seq<Forecast>)

  datatype Forecast = Forecast(dt: int, temp: Temp, weather: seq<Condition>)

  datatype Temp = Temp(min: Temperature, max: Temperature, day: Temperature)

  datatype Condition = Condition(main: string, description: string)

  /** The body decoded as a `JsonReply`, or the decoder's error text. */
  type Decoded = Result<JsonReply, string>

  const Scheme: string := "https://"
  const Host: string := "api.openweathermap.org"
  const Path: string := "/data/2.5/onecall"
  const Endpoint: string := Scheme + Host + Path
  const Units: string := "metric"
  const ForecastExcludes: string := "current,minutely,hourly"
  const DecodeErrorPrefix: string := "Unable to process the response from OpenWeatherMap. "

  /** The request URL for `loc`, authorized with `key`. */
  function GetUrl(loc: Location, key: string): (url: string)
    ensures |Endpoint + "?"| <= |url| && url[..|Endpoint + "?"|] == Endpoint + "?"
  {
    Endpoint + "?lat=" + loc.lat + "&lon=" + loc.lon + "&units=" + Units
      + "&exclude=" + ForecastExcludes + "&appid=" + key
  }

  /** The query parameters of the request, in the order the URL carries them. */
  function Parameters(loc: Location, key: string): seq<string> {
    ["lat=" + loc.lat, "lon=" + loc.lon, "units=" + Units, "exclude=" + ForecastExcludes, "appid=" + key]
  }

  /** The parameters joined by `&`. */
  lemma JoinParameters(loc: Location, key: string)
    ensures Join(Parameters(loc, key), '&') ==
      "lat=" + loc.lat + "&lon=" + loc.lon + "&units=" + Units
        + "&exclude=" + ForecastExcludes + "&appid=" + key
  {
    JoinFive("lat=" + loc.lat, "lon=", loc.lon, "units=", Units, "exclude=", ForecastExcludes, "appid=", key, '&');
    assert "&" + "lon=" == "&lon=" && "&" + "units=" == "&units=";
    assert "&" + "exclude=" == "&exclude=" && "&" + "appid=" == "&appid=";
  }

  /** The URL is the endpoint, a `?`, and the parameters joined by `&`. */
  lemma UrlShape(loc: Location, key: string)
    ensures GetUrl(loc, key) == Endpoint + "?" + Join(Parameters(loc, key), '&')
  {
    JoinParameters(loc, key);
  }

  /**
   * The URL is the endpoint followed by one query holding exactly the
   * parameters lat, lon, units=metric, exclude=current,minutely,hourly and
   * appid, in that order, each carrying its value unchanged (so long as the
   * values themselves contain no `&`).
   */
  lemma UrlParameters(loc: Location, key: string)
    requires '&' !in loc.lat && '&' !in loc.lon && '&' !in key
    ensures GetUrl(loc, key) == Endpoint + "?" + Join(Parameters(loc, key), '&')
    ensures Split(Join(Parameters(loc, key), '&'), '&') == Parameters(loc, key)
  {
    var p := Parameters(loc, key);
    assert forall i :: 0 <= i < |p| ==> '&' !in p[i];
    SplitJoin(p, '&');
    UrlShape(loc, key);
  }

  /** The endpoint starts with the scheme and then the host. */
  lemma EndpointScheme()
    ensures |Endpoint| > |Scheme| && Endpoint[..|Scheme|] == Scheme && Endpoint[|Scheme|] == Host[0]
  {
    PrefixAgrees(Endpoint, Scheme + Host, |Scheme|);
  }

  /** The URL is absolute: the `https` scheme, then a host that starts right after `//`. */
  lemma UrlScheme(loc: Location, key: string)
    ensures var url := GetUrl(loc, key); |url| > 8 && url[..8] == "https://" && url[8] != '/'
  {
    var url, head := GetUrl(loc, key), Endpoint + "?";
    EndpointScheme();
    PrefixAgrees(head, Endpoint, |Scheme|);
    PrefixAgrees(url, head, |Scheme|);
  }

  /** The URL depends only on the coordinates and the key: name, state and country are not used. */
  lemma UrlIgnoresPlaceNames(a: Location, b: Location, key: string)
    requires a.lat == b.lat && a.lon == b.lon
    ensures GetUrl(a, key) == GetUrl(b, key)
  {
  }

  /** One reply day as a normalized forecast; only the first `weather` entry is read. */
  function Normalize(item: Forecast): WeatherForecast
    requires |item.weather| > 0
  {
    WeatherForecast(
      dt := item.dt,
      minT := item.temp.min,
      maxT := item.temp.max,
      avgT := item.temp.day,
      condition := item.weather[0].main + ", " + item.weather[0].description)
  }

  /** Every day carries at least one weather condition (the adapter reads `weather[0]` unchecked). */
  predicate ConditionsPresent(daily: seq<Forecast>) {
    forall i :: 0 <= i < |daily| ==> |daily[i].weather| > 0
  }

  /** The days, one forecast each, in reply order. */
  function NormalizeAll(daily: seq<Forecast>): (forecasts: seq<WeatherForecast>)
    requires ConditionsPresent(daily)
    ensures |forecasts| == |daily|
    ensures forall i :: 0 <= i < |daily| ==> forecasts[i] == Normalize(daily[i])
  {
    if daily == [] then [] else [Normalize(daily[0])] + NormalizeAll(daily[1..])
  }

  /**
   * `handle_response` on the decoded body: a decode failure is an Internal
   * error naming the provider; otherwise one forecast per day, in order,
   * with dt, min, max and day temperatures copied and the condition
   * "main, description" of the day's first weather entry.
   */
  function HandleResponse(decoded: Decoded): (r: Result<seq<WeatherForecast>, Error>)
    requires decoded.Ok? ==> ConditionsPresent(decoded.value.daily)
    ensures decoded.Err? ==> r == Err(Error(Internal, DecodeErrorPrefix + decoded.error))
    ensures decoded.Ok? ==> r.Ok? && |r.value| == |decoded.value.daily|
    ensures decoded.Ok? ==> forall i :: 0 <= i < |r.value| ==>
      var item := decoded.value.daily[i];
      && r.value[i].dt == item.dt
      && r.value[i].minT == item.temp.min
      && r.value[i].maxT == item.temp.max
      && r.value[i].avgT == item.temp.day
      && r.value[i].condition == item.weather[0].main + ", " + item.weather[0].description
  {
    match decoded
    case Err(message) => Err(Error(Internal, DecodeErrorPrefix + message))
    case Ok(reply) => Ok(NormalizeAll(reply.daily))
  }

  /** Weather entries after the first have no effect on the result. */
  lemma LaterConditionsIgnored(a: Forecast, b: Forecast)
    requires |a.weather| > 0 && |b.weather| > 0
    requires a.dt == b.dt && a.temp == b.temp && a.weather[0] == b.weather[0]
    ensures Normalize(a) == Normalize(b)
  {
  }

  /** The adapter's test reply. */
  lemma TestReply()
    ensures var reply := JsonReply([
        Forecast(946684800, Temp(19.5, 20.5, 20.0), [Condition("Sky is clear", "warm and good")]),
        Forecast(946771200, Temp(22.5, 23.5, 23.0), [Condition("Sky is clear", "warm and good too")])]);
      HandleResponse(Ok(reply)) == Ok([
        WeatherForecast(946684800, 19.5, 20.5, 20.0, "Sky is clear, warm and good"),
        WeatherForecast(946771200, 22.5, 23.5, 23.0, "Sky is clear, warm and good too")])
  {
    var reply := JsonReply([
        Forecast(946684800, Temp(19.5, 20.5, 20.0), [Condition("Sky is clear", "warm and good")]),
        Forecast(946771200, Temp(22.5, 23.5, 23.0), [Condition("Sky is clear", "warm and good too")])]);
    var r := HandleResponse(Ok(reply)).value;
    assert |r| == 2;
    assert r[0] == WeatherForecast(946684800, 19.5, 20.5, 20.0, "Sky is clear, warm and good");
    assert r[1] == WeatherForecast(946771200, 22.5, 23.5, 23.0, "Sky is clear, warm and good too");
    assert r == [r[0], r[1]];
  }
}
