/** The records of the camera domain: a parsed camera and a raw CSV row. */
module Models {

  /** The range of a C# `int`. */
  type Int32 = x: int | -0x8000_0000 <= x <= 0x7FFF_FFFF

  /** A camera as served to clients. Latitude and longitude are carried as
      text, exactly as the source file spells them. */
  datatype Camera = Camera(
    number: Int32,
    code: string,
    name: string,
    latitude: string,
    longitude: string)

  /** One row of the semicolon-separated source file, after the CSV reader
      has mapped the `Camera`, `Latitude` and `Longitude` columns. */
  datatype CsvRow = CsvRow(camera: string, latitude: string, longitude: string)

  /** A `CameraCsvRow` built with no initialiser: three empty fields. */
  const DefaultCsvRow: CsvRow := CsvRow("", "", "")
}
