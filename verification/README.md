# Weather server forecast core, in Dafny

A model of the forecast-resolution core of a gRPC weather server. A client asks for the
forecast of one day at one place from one of two providers (OpenWeatherMap or WeatherApi).
The server:

- resolves the provider name;
- builds the provider's request URL;
- makes one HTTP request;
- maps the decoded reply to normalized daily forecasts;
- returns the first forecast whose UTC date is the requested `mm.dd.yyyy` date, or a typed error that becomes a gRPC status.

Modules, one per file:

| file | module | models |
|---|---|---|
| `wrappers.dfy` | `Wrappers` | `Option`, `Result` |
| `text.dfy` | `Text` | splitting and joining on a separator, decimal digit fields |
| `calendar.dfy` | `Calendar` | chrono's proleptic Gregorian calendar: days since 1970-01-01, the UTC date of a Unix timestamp, the representable year range |
| `date_text.dfy` | `DateText` | `NaiveDate::parse_from_str(s, "%m.%d.%Y")` and the `%m.%d.%Y` rendering |
| `registry.dfy` | `Registry` | `AvailableService`: listing, names, `FromStr` |
| `rpc_types.dfy` | `RpcTypes` | the `Location` and `WeatherForecast` messages |
| `errors.dfy` | `Errors` | `ErrorCode`, `Error`, its `Display`, `make_invalid_date_error` |
| `openweathermap.dfy` | `OpenWeatherMap` | the OpenWeatherMap adapter: reply shapes, `get_url`, `handle_response` |
| `weatherapi.dfy` | `WeatherApi` | the WeatherApi adapter: reply shapes, `get_url`, `handle_response` |
| `forecaster.dfy` | `Forecaster` | `get_forecast_integration`, `WeatherForecaster::get_weather` |
| `weather_service.dfy` | `WeatherService` | `get_weather_providers`, and the provider resolution and status mapping of `get_weather` |

The one HTTP exchange is an input (`Forecaster.Exchange`). It is either a transport failure with
its error text, or a reply with a status, its body as text, and its body as the serde decoder
would have decoded it (`Result` of the provider's reply shape or the decoder's error text).
`Forecaster.Outcome` is `get_weather` as a function of its inputs and that exchange. It returns the
URL requested (none when the date does not parse) and the result. `Forecaster.GetWeather` is the
same operation step by step: the day search is a loop (`TakeFirst`, `position` then
`Vec::remove`) proved against the specification `Position`.

The source can panic in four places that the model handles. The first three become preconditions:

- OpenWeatherMap's `weather[0]`: `OpenWeatherMap.ConditionsPresent`.
- `location.unwrap()`: `WeatherService.NoPanic`.
- `from_timestamp` out of range, on each entry the search converts: `Forecaster.NoPanic`.
- `Url::parse`: instead of a precondition, a lemma proves the two adapters always produce an absolute http(s) URL (`Forecaster.AdapterUrlsAbsolute`).

A fifth panic, `response.text().await.unwrap()` on the 400 and other non-200 paths, is outside the model (see "Left out").

## Model

| member | source | states |
|---|---|---|
| Registry.All | src/forecast/available_services.rs:7-11 | `iter()` lists each service exactly once, at its declaration position |
| Registry.AllInOrder | src/forecast/available_services.rs:8-9 | the listing is exactly `[OpenWeatherMap, WeatherApi]` |
| Registry.NamesDistinct | src/forecast/available_services.rs:16-19 | distinct services render to distinct names |
| Registry.Parse | src/forecast/available_services.rs:26-32 | `from_str` succeeds only on a string that is exactly a service's name, and fails when no service has that name |
| Registry.ParseName | src/forecast/available_services.rs:17-18 | `from_str(to_string(x)) == Ok(x)` for every service |
| Registry.ParseIsExact | src/forecast/available_services.rs:27-31 | no case folding or trimming: near misses and the empty string are rejected |
| Errors.Display | src/forecast/mod.rs:27-31 | the text is the fixed prefix, the description and a final `.`, and nothing else |
| Errors.DisplayKeepsDescription | src/forecast/mod.rs:29 | the description can be recovered from the displayed text |
| Errors.InvalidDateError | src/forecast/mod.rs:49-56 | code InvalidArgument, the fixed invalid-date description |
| Text.Split | src/forecast/mod.rs:72 | at least one field, and no field contains the separator |
| Text.JoinSplit | src/forecast/mod.rs:72 | joining the fields of a split gives back the text |
| Text.SplitJoin | src/forecast/mod.rs:72 | splitting a join of separator-free fields gives back the fields |
| Text.PadDigitsValue | src/forecast/mod.rs:72 | a zero-padded field has the given width, is all digits and reads back as the number |
| Calendar.CivilFromDays | src/forecast/mod.rs:91 | day `n` converts to a valid date exactly `n` days after 1970-01-01 |
| Calendar.CivilFromDaysOfCivil | src/forecast/mod.rs:91 | the conversion inverts the day count of every valid date |
| Calendar.DaysFromCivilInjective | src/forecast/mod.rs:91 | distinct valid dates have distinct day counts |
| Calendar.DateOfTimestamp | src/forecast/mod.rs:91 | the UTC date of a timestamp is a valid date |
| Calendar.OnDateIff | src/forecast/mod.rs:91 | a timestamp's UTC date is `d` iff it lies in the 86400 seconds starting at `d`'s midnight |
| Calendar.DayRange | src/forecast/mod.rs:91 | chrono's days run from -96465658 to 95026601, counted from 1970-01-01 |
| Calendar.DayInRangeIff | src/forecast/mod.rs:91 | a day count is within that range exactly when the year of its date is representable |
| Calendar.TimestampInRangeIff | src/forecast/mod.rs:91 | a timestamp passes chrono's range check exactly when its UTC date is representable |
| Calendar.TestTimestamps | src/forecast/mod.rs:151-158 | 946684800 is 2000-01-01 and 946771200 is 2000-01-02 |
| DateText.ParseDate | src/forecast/mod.rs:71-73 | an accepted date exists in the calendar, has a year of at most four digits and lies in chrono's range |
| DateText.ParsedText | src/forecast/mod.rs:71-73 | the text is exactly month, day and year fields joined by dots, and they hold the date's values |
| DateText.SplitFields | src/forecast/mod.rs:72 | three digit fields joined by dots split back into exactly those three fields |
| DateText.LongYearRefused | src/forecast/mod.rs:71-73 | a year field of more than four digits is refused, whatever its value |
| DateText.TestFiveDigitYear | src/forecast/mod.rs:71-73 | "01.01.02000" and "01.01.10000" do not parse |
| DateText.ParseFormatDate | src/forecast/mod.rs:71-73 | any date with a four-digit year, rendered `%m.%d.%Y`, parses back to itself |
| DateText.TestDate | src/forecast/mod.rs:201 | "01.01.2000" and "01.01.1999" parse to those days |
| DateText.TestWrongOrder | src/forecast/mod.rs:233 | "2000.01.01" does not parse |
| OpenWeatherMap.GetUrl | src/forecast/forecast_services/openweathermap.rs:43-50 | the URL starts with the One Call endpoint and `?` |
| OpenWeatherMap.UrlParameters | src/forecast/forecast_services/openweathermap.rs:47-49 | the query holds exactly lat, lon, units=metric, exclude=current,minutely,hourly and appid, in that order, with their values unchanged |
| OpenWeatherMap.UrlShape | src/forecast/forecast_services/openweathermap.rs:47-49 | the URL is the endpoint, `?`, and the parameters joined by `&` |
| OpenWeatherMap.UrlScheme | src/forecast/forecast_services/openweathermap.rs:48 | the URL is absolute: `https://` followed by a host |
| OpenWeatherMap.UrlIgnoresPlaceNames | src/forecast/forecast_services/openweathermap.rs:43-49 | the URL depends only on lat, lon and the key |
| OpenWeatherMap.NormalizeAll | src/forecast/forecast_services/openweathermap.rs:59-67 | one forecast per day, same order; dt, min, max and day copied; condition is `main + ", " + description` of the first weather entry |
| OpenWeatherMap.HandleResponse | src/forecast/forecast_services/openweathermap.rs:52-69 | a decode error becomes Internal with the OpenWeatherMap prefix and the decoder's text; a reply becomes its days, in order |
| OpenWeatherMap.LaterConditionsIgnored | src/forecast/forecast_services/openweathermap.rs:65 | weather entries after the first do not affect the forecast |
| OpenWeatherMap.TestReply | src/forecast/forecast_services/openweathermap.rs:150-162 | the test reply yields the two expected forecasts |
| WeatherApi.GetUrl | src/forecast/forecast_services/weatherapi.rs:48-53 | the URL starts with the forecast endpoint and `?` |
| WeatherApi.UrlParameters | src/forecast/forecast_services/weatherapi.rs:49-52 | the query holds exactly key, q=lat,lon, days=10, aqi=no and alerts=no, in that order, with their values unchanged |
| WeatherApi.UrlShape | src/forecast/forecast_services/weatherapi.rs:49-52 | the URL is the endpoint, `?`, and the parameters joined by `&` |
| WeatherApi.UrlScheme | src/forecast/forecast_services/weatherapi.rs:50 | the URL is absolute: `http://` followed by a host |
| WeatherApi.UrlIgnoresPlaceNames | src/forecast/forecast_services/weatherapi.rs:48-52 | the URL depends only on lat, lon and the key |
| WeatherApi.NormalizeAll | src/forecast/forecast_services/weatherapi.rs:62-71 | one forecast per day, same order; date_epoch, mintemp_c, maxtemp_c, avgtemp_c and the condition text copied |
| WeatherApi.HandleResponse | src/forecast/forecast_services/weatherapi.rs:55-74 | a decode error becomes Internal with the WeatherApi prefix and the decoder's text; a reply becomes its days, in order |
| WeatherApi.TestReply | src/forecast/forecast_services/weatherapi.rs:150-162 | the test reply yields the two expected forecasts |
| Forecaster.GetForecastIntegration | src/forecast/mod.rs:117-121 | total over the services: each gets its own adapter with its own key |
| Forecaster.Position | src/forecast/mod.rs:90-92 | `position`: the result is the first index satisfying the predicate, or none when no element does |
| Forecaster.TakeFirst | src/forecast/mod.rs:90-95 | the loop finds the first match and removes it, keeping the rest in order; nothing is removed when there is no match |
| Forecaster.GetWeather | src/forecast/mod.rs:70-114 | the step-by-step operation computes exactly `Outcome` |
| Forecaster.BadDateMakesNoRequest | src/forecast/mod.rs:71-73 | a date that does not parse gives the invalid-date error, and no URL is built or requested |
| Forecaster.ErrorTaxonomy | src/forecast/mod.rs:75-112 | a parsed date leads to a request for the adapter's URL; a transport failure gives Internal with "Unable to make request. "; 400 gives InvalidArgument and any other non-200 status gives Internal, both with the body verbatim |
| Forecaster.AdapterErrorPropagates | src/forecast/mod.rs:88 | on 200, an adapter error comes back unchanged |
| Forecaster.SelectsEarliestDay | src/forecast/mod.rs:86-99 | on 200, the result is Ok iff some day falls on the requested UTC date; it is the earliest such day; otherwise it is the invalid-date error |
| Forecaster.FirstOnDate | src/forecast/mod.rs:90-92 | the search for a date stops at the first day on that date, and fails only when no day is on it |
| Forecaster.FoundAt | src/forecast/mod.rs:90-95 | with the first match at `i` and the days up to it in range, the call does not panic and returns day `i` |
| Forecaster.NoneFound | src/forecast/mod.rs:94-99 | with no match and every day in range, the call does not panic and returns the invalid-date error |
| Forecaster.FoundAtHead | src/forecast/mod.rs:90-95 | a first day on the requested date, in range, is returned without panic |
| Forecaster.MissedInPair | src/forecast/mod.rs:94-99 | two in-range days, neither on the requested date, give the invalid-date error without panic |
| Forecaster.Y2kFound | src/forecast/mod.rs:148-162 | the stub's first day is on 2000-01-01, its second on 2000-01-02, and both are in range |
| Forecaster.Y2kMissing | src/forecast/mod.rs:148-162 | neither stub day is on a date outside 2000, and both are in range |
| Forecaster.TestDayFound | src/forecast/mod.rs:198-209 | against the stub days 946684800 and 946771200, 2000-01-01 gets the first day |
| Forecaster.TestDayMissing | src/forecast/mod.rs:212-218 | against the same days, 1999-01-01 gets the invalid-date error |
| Forecaster.TestWrongFieldOrder | src/forecast/mod.rs:230-236 | "2000.01.01" is refused as InvalidArgument without a request |
| Forecaster.AdapterUrlsAbsolute | src/forecast/mod.rs:75-77 | both adapters produce an absolute http(s) URL, so the parse panic cannot be reached through them |
| Forecaster.TestNotAnUrl | src/forecast/mod.rs:238-244 | the panic test's stub URL is not an absolute http(s) URL |
| WeatherService.GetWeatherProviders | src/weather_service_impl.rs:20-26 | one name per listed service, in listing order, each parsing back to that service |
| WeatherService.ProvidersListing | src/weather_service_impl.rs:20-26 | the listing is exactly "OpenWeatherMap", "WeatherApi" |
| WeatherService.ProvidersComplete | src/weather_service_impl.rs:22 | every service's name appears in the listing exactly once, at its position |
| WeatherService.CodeOf | src/weather_service_impl.rs:56-59 | Internal maps to Internal and InvalidArgument to InvalidArgument, both ways |
| WeatherService.CodeOfInjective | src/weather_service_impl.rs:56-59 | the code mapping is one for one |
| WeatherService.ToStatus | src/weather_service_impl.rs:55-60 | the status carries the mapped code and the error's `Display` text |
| WeatherService.ToStatusInjective | src/weather_service_impl.rs:55-60 | distinct errors give distinct statuses |
| WeatherService.GetWeather | src/weather_service_impl.rs:43-62 | an unknown provider gives InvalidArgument "Invalid weather provider passed." with no request; otherwise the forecaster's request is kept, a forecast is returned unchanged, and an error becomes its status |
| WeatherService.UnknownProviderRejected | src/weather_service_impl.rs:46-49 | any string that names no service is refused, and nothing is requested |
| WeatherService.ListedProviderServed | src/weather_service_impl.rs:46-62 | every listed name resolves to its service, and the reply is that service's forecaster's request with its forecast, or its error as a status |
| WeatherService.BadDateIsInvalidArgument | src/weather_service_impl.rs:131-141 | a known provider with a date that does not parse is answered with InvalidArgument and the invalid-date message |

## Left out

- Transport and async. The reqwest client, tonic `Request`/`Response` and `async`/`await` are not modelled. The HTTP exchange is an input.
- `response.text()` failing. Its `unwrap` (a fifth panic site, on the 400 and other non-200 paths) would panic. The body text is an input.
- serde JSON decoding. Only the decoded record shapes are modelled, with the decoder's error text as an abstract outcome.
- Float formatting. `Location.lat` and `Location.lon` are the already-rendered `f32` texts. Temperatures are copied through as values, with no arithmetic on them.
- `reqwest::Url::parse` in general. `AbsoluteHttpUrl` requires only an http(s) scheme and a host. The model shows that the two adapters satisfy it; it does not model the full URL grammar.
- chrono's parser leniency. `ParseDate` reads exactly three fields of ASCII digits, the year at most four. Signs, whitespace and other `%Y` spellings chrono may accept are not modelled.
- Calendar.YearOfDay: the year of a day count is found by walking year by year from 1970, not by chrono's closed-form conversion. The two agree on every input, since the result is pinned down by `DaysFromCivil` (`CivilFromDays`, `DaysFromCivilInjective`).
- The `ErrorCode` discriminant values (1 and 2) are not used by the core and are not modelled.
- `get_locations` and `src/location_search.rs` are not part of this model. They are one geocoding request and a field-for-field copy.
- `src/main.rs` (server start-up) and `src/defs.rs` (configuration loading) are not part of this model. The API keys are the `Credentials` parameter.
- The httpmock test harnesses are not modelled. Their fixtures appear only in the `Test…` lemmas.
- Forecaster.TestDayFound, Forecaster.TestDayMissing: the date string is constrained by the date it parses to, not by its text. `DateText.TestDate` separately shows that "01.01.2000" and "01.01.1999" parse to those dates.
