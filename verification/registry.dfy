/**
 * The provider registry: the closed set of forecast services, listed in
 * declaration order, each with one canonical name that is also the only
 * spelling the parser accepts.
 */
module Registry {
  import opened Wrappers

  datatype AvailableService = OpenWeatherMap | WeatherApi

  /** Position of a variant in the enum's declaration. */
  function Ordinal(s: AvailableService): nat {
    match s
    case OpenWeatherMap => 0
    case WeatherApi => 1
  }

  /** `AvailableService::iter()`: every variant exactly once, in declaration order. */
  function All(): (services: seq<AvailableService>)
    ensures forall s: AvailableService :: Ordinal(s) < |services| && services[Ordinal(s)] == s
    ensures forall i :: 0 <= i < |services| ==> Ordinal(services[i]) == i
  {
    [OpenWeatherMap, WeatherApi]
  }

  /** The `Display` rendering of a service. */
  function Name(s: AvailableService): string {
    match s
    case OpenWeatherMap => "OpenWeatherMap"
    case WeatherApi => "WeatherApi"
  }

  /** `FromStr`: exact, case-sensitive match against the canonical names. */
  function Parse(input: string): (r: Option<AvailableService>)
    ensures r.Some? ==> Name(r.value) == input
    ensures r.None? ==> forall s: AvailableService :: Name(s) != input
  {
    if input == "OpenWeatherMap" then Some(OpenWeatherMap)
    else if input == "WeatherApi" then Some(WeatherApi)
    else None
  }

  /** The listing is exactly the two providers, in this order. */
  lemma AllInOrder()
    ensures All() == [OpenWeatherMap, WeatherApi]
  {
  }

  /** Distinct services have distinct names. */
  lemma NamesDistinct(a: AvailableService, b: AvailableService)
    requires a != b
    ensures Name(a) != Name(b)
  {
  }

  /** Parsing a rendered name yields the service back. */
  lemma ParseName(s: AvailableService)
    ensures Parse(Name(s)) == Some(s)
  {
  }

  /** No trimming and no case folding: near misses of a name are rejected. */
  lemma ParseIsExact()
    ensures Parse("openweathermap") == None
    ensures Parse("WEATHERAPI") == None
    ensures Parse(" WeatherApi") == None
    ensures Parse("OpenWeatherMap ") == None
    ensures Parse("") == None
  {
  }
}
