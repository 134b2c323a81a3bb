/** The configuration read from config.json at start-up (main.ts:10-18, 22). */
module Settings {

  datatype DomainSettings = DomainSettings(name: string, ttl: int)

  /** `update interval` is in milliseconds; it paces the timer and bounds every request. */
  datatype Config = Config(email: string, password: string, updateInterval: int, domain: DomainSettings)
}
