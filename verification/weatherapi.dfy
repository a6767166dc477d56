/**
 * The WeatherAPI adapter: the forecast request URL for a place, and the
 * mapping of the decoded forecast reply to normalized daily forecasts.
 */
module WeatherApi {
  import opened Wrappers
  import opened Text
  import opened RpcTypes
  import opened Errors

  /** The part of the forecast reply the adapter reads. */
  datatype JsonReply = JsonReply(forecast: ForecastDay)

  datatype ForecastDay = ForecastDay(forecastday: seq<DailyForecast>)

  datatype DailyForecast = DailyForecast(date_epoch: int, day: WeatherData)

  datatype WeatherData = WeatherData(
    maxtemp_c: Temperature,
    mintemp_c: Temperature,
    avgtemp_c: Temperature,
    condition: Condition)

  datatype Condition = Condition(text: string)

  /** The body decoded as a `JsonReply`, or the decoder's error text. */
  type Decoded = Result<JsonReply, string>

  const Scheme: string := "http://"
  const Host: string := "api.weatherapi.com"
  const Path: string := "/v1/forecast.json"
  const Endpoint: string := Scheme + Host + Path
  const DecodeErrorPrefix: string := "Unable to process the response from WeatherApi. "

  /** The request URL for `loc`, authorized with `key`: ten days, no air quality, no alerts. */
  function GetUrl(loc: Location, key: string): (url: string)
    ensures |Endpoint + "?"| <= |url| && url[..|Endpoint + "?"|] == Endpoint + "?"
  {
    Endpoint + "?key=" + key + "&q=" + loc.lat + "," + loc.lon + "&days=10&aqi=no&alerts=no"
  }

  /** The query parameters of the request, in the order the URL carries them. */
  function Parameters(loc: Location, key: string): seq<string> {
    ["key=" + key, "q=" + loc.lat + "," + loc.lon, "days=10", "aqi=no", "alerts=no"]
  }

  /** The parameters joined by `&`. */
  lemma JoinParameters(loc: Location, key: string)
    ensures Join(Parameters(loc, key), '&') ==
      "key=" + key + "&q=" + loc.lat + "," + loc.lon + "&days=10&aqi=no&alerts=no"
  {
    var q := loc.lat + "," + loc.lon;
    var u := "key=" + key + "&q=";
    Assoc("q=" + loc.lat, ",", loc.lon);
    Assoc("q=", loc.lat, ",");
    Assoc("q=", loc.lat + ",", loc.lon);
    assert "q=" + loc.lat + "," + loc.lon == "q=" + q;
    assert "days=10" == "days=" + "10" && "aqi=no" == "aqi=" + "no" && "alerts=no" == "alerts=" + "no";
    assert Parameters(loc, key) == ["key=" + key, "q=" + q, "days=" + "10", "aqi=" + "no", "alerts=" + "no"];
    JoinFive("key=" + key, "q=", q, "days=", "10", "aqi=", "no", "alerts=", "no", '&');
    assert "&" + "q=" == "&q=";
    calc {
      Join(Parameters(loc, key), '&');
      u + q + ("&" + "days=") + "10" + ("&" + "aqi=") + "no" + ("&" + "alerts=") + "no";
    == { Assoc(u, loc.lat + ",", loc.lon); Assoc(u, loc.lat, ","); }
      u + loc.lat + "," + loc.lon + ("&" + "days=") + "10" + ("&" + "aqi=") + "no" + ("&" + "alerts=") + "no";
    == { QueryTail(u + loc.lat + "," + loc.lon); }
      u + loc.lat + "," + loc.lon + "&days=10&aqi=no&alerts=no";
    }
  }

  /** The fixed tail of the query, spelled parameter by parameter. */
  lemma QueryTail(x: string)
    ensures x + ("&" + "days=") + "10" + ("&" + "aqi=") + "no" + ("&" + "alerts=") + "no"
      == x + "&days=10&aqi=no&alerts=no"
  {
    var tail := ("&" + "days=") + "10" + ("&" + "aqi=") + "no" + ("&" + "alerts=") + "no";
    assert tail == "&days=10&aqi=no&alerts=no";
  }

  /** The URL is the endpoint, a `?`, and the parameters joined by `&`. */
  lemma UrlShape(loc: Location, key: string)
    ensures GetUrl(loc, key) == Endpoint + "?" + Join(Parameters(loc, key), '&')
  {
    JoinParameters(loc, key);
  }

  /**
   * The URL is the endpoint followed by one query holding exactly the
   * parameters key, q=lat,lon, days=10, aqi=no and alerts=no, in that order,
   * each carrying its value unchanged (so long as the values themselves
   * contain no `&`).
   */
  lemma UrlParameters(loc: Location, key: string)
    requires '&' !in loc.lat && '&' !in loc.lon && '&' !in key
    ensures GetUrl(loc, key) == Endpoint + "?" + Join(Parameters(loc, key), '&')
    ensures Split(Join(Parameters(loc, key), '&'), '&') == Parameters(loc, key)
  {
    var p := Parameters(loc, key);
    assert forall i :: 0 <= i < |p| ==> '&' !in p[i];
    SplitJoin(p, '&');
    UrlShape(loc, key);
  }

  /** The endpoint starts with the scheme and then the host. */
  lemma EndpointScheme()
    ensures |Endpoint| > |Scheme| && Endpoint[..|Scheme|] == Scheme && Endpoint[|Scheme|] == Host[0]
  {
    PrefixAgrees(Endpoint, Scheme + Host, |Scheme|);
  }

  /** The URL is absolute: the `http` scheme, then a host that starts right after `//`. */
  lemma UrlScheme(loc: Location, key: string)
    ensures var url := GetUrl(loc, key); |url| > 7 && url[..7] == "http://" && url[7] != '/'
  {
    var url, head := GetUrl(loc, key), Endpoint + "?";
    EndpointScheme();
    PrefixAgrees(head, Endpoint, |Scheme|);
    PrefixAgrees(url, head, |Scheme|);
  }

  /** The URL depends only on the coordinates and the key: name, state and country are not used. */
  lemma UrlIgnoresPlaceNames(a: Location, b: Location, key: string)
    requires a.lat == b.lat && a.lon == b.lon
    ensures GetUrl(a, key) == GetUrl(b, key)
  {
  }

  /** One reply day as a normalized forecast. */
  function Normalize(item: DailyForecast): WeatherForecast {
    WeatherForecast(
      dt := item.date_epoch,
      minT := item.day.mintemp_c,
      maxT := item.day.maxtemp_c,
      avgT := item.day.avgtemp_c,
      condition := item.day.condition.text)
  }

  /** The days, one forecast each, in reply order. */
  function NormalizeAll(days: seq<DailyForecast>): (forecasts: seq<WeatherForecast>)
    ensures |forecasts| == |days|
    ensures forall i :: 0 <= i < |days| ==> forecasts[i] == Normalize(days[i])
  {
    if days == [] then [] else [Normalize(days[0])] + NormalizeAll(days[1..])
  }

  /**
   * `handle_response` on the decoded body: a decode failure is an Internal
   * error naming the provider; otherwise one forecast per day, in order,
   * with the epoch and the min, max and average temperatures copied and the
   * condition text unchanged.
   */
  function HandleResponse(decoded: Decoded): (r: Result<seq<WeatherForecast>, Error>)
    ensures decoded.Err? ==> r == Err(Error(Internal, DecodeErrorPrefix + decoded.error))
    ensures decoded.Ok? ==> r.Ok? && |r.value| == |decoded.value.forecast.forecastday|
    ensures decoded.Ok? ==> forall i :: 0 <= i < |r.value| ==>
      var item := decoded.value.forecast.forecastday[i];
      && r.value[i].dt == item.date_epoch
      && r.value[i].minT == item.day.mintemp_c
      && r.value[i].maxT == item.day.maxtemp_c
      && r.value[i].avgT == item.day.avgtemp_c
      && r.value[i].condition == item.day.condition.text
  {
    match decoded
    case Err(message) => Err(Error(Internal, DecodeErrorPrefix + message))
    case Ok(reply) => Ok(NormalizeAll(reply.forecast.forecastday))
  }

  /** The adapter's test reply. */
  lemma TestReply()
    ensures var reply := JsonReply(ForecastDay([
        DailyForecast(946684800, WeatherData(20.5, 19.5, 20.0, Condition("It's warm and good!"))),
        DailyForecast(946771200, WeatherData(23.5, 22.5, 23.0, Condition("It's warm and good too!")))]));
      HandleResponse(Ok(reply)) == Ok([
        WeatherForecast(946684800, 19.5, 20.5, 20.0, "It's warm and good!"),
        WeatherForecast(946771200, 22.5, 23.5, 23.0, "It's warm and good too!")])
  {
    var reply := JsonReply(ForecastDay([
        DailyForecast(946684800, WeatherData(20.5, 19.5, 20.0, Condition("It's warm and good!"))),
        DailyForecast(946771200, WeatherData(23.5, 22.5, 23.0, Condition("It's warm and good too!")))]));
    var r := HandleResponse(Ok(reply)).value;
    assert |r| == 2;
    assert r[0] == WeatherForecast(946684800, 19.5, 20.5, 20.0, "It's warm and good!");
    assert r[1] == WeatherForecast(946771200, 22.5, 23.5, 23.0, "It's warm and good too!");
    assert r == [r[0], r[1]];
  }
}
