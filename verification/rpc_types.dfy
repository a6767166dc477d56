/**
 * The message types of the weather service's RPC interface that the
 * forecast core exchanges: a place and one day's normalized forecast.
 */
module RpcTypes {

  /** A temperature in degrees Celsius; the core only copies these through. */
  type Temperature = real

  /**
   * A place. `lat` and `lon` are the coordinates as the server renders them
   * into URLs (the shortest text that reads back as the same 32-bit float).
   */
  datatype Location = Location(name: string, state: string, country: string, lat: string, lon: string)

  /** One calendar day's forecast: `dt` is a Unix timestamp in seconds. */
  datatype WeatherForecast = WeatherForecast(
    dt: int,
    minT: Temperature,
    maxT: Temperature,
    avgT: Temperature,
    condition: string)
}
