/** The configuration of the embedded-resource camera store. Durations are
    counted in .NET ticks of 100 nanoseconds. */
module StoreSettings {

  /** The configuration section the settings are bound from. */
  const SectionName: string := "CameraStore"

  const TicksPerMinute: int := 600_000_000

  datatype CameraStoreSettings = CameraStoreSettings(
    resourcePath: string,
    enableCaching: bool,
    cacheExpiration: int)

  /** The settings of a freshly constructed `CameraStoreSettings`: the bundled
      `Data.cameras-defb.csv`, caching on, a 30-minute window. */
  const DefaultSettings: CameraStoreSettings :=
    CameraStoreSettings("Data.cameras-defb.csv", true, 30 * TicksPerMinute)
}
