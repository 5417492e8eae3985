/** Values shared by the models of the two services. */
module Domain {
  datatype Option<+T> = None | Some(value: T)

  /** The fields of a telemetry message that some decision of the ingestion service reads. */
  datatype Telemetry = Telemetry(
    vehicleId: string,
    fleetId: string,
    speedKmh: real,
    fuelPct: real,
    engineTempC: real,
    receivedAt: int)
}
