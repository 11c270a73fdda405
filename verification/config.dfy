/** The watermark configuration and export options shared by the control
    panel, the preview canvas and the download handlers. */
module Config {
  import opened Common

  datatype WatermarkType = Text | Image

  /** The settings the user edits. `imageFile` is the optional watermark
      image; `imageSize` is a percentage. */
  datatype WatermarkConfig = WatermarkConfig(
    kind: WatermarkType,
    text: string,
    color: string,
    fontSize: real,
    opacity: real,
    rotation: real,
    repeat: bool,
    spacing: real,
    imageFile: Option<FileRef>,
    imageSize: real)

  datatype ExportFormat = Png | Jpeg | Webp

  datatype ExportOptions = ExportOptions(format: ExportFormat, quality: real)

  /** The format as it appears in file names and MIME types. */
  function FormatName(f: ExportFormat): string
  {
    match f
    case Png => "png"
    case Jpeg => "jpeg"
    case Webp => "webp"
  }
}

/** The defaults the application starts from. */
module Defaults {
  import opened Common
  import opened Config

  const DefaultWatermarkConfig := WatermarkConfig(
    Text, "Watermark", "#ffffff", 48.0, 0.8, 0.0, false, 200.0, None, 100.0)

  const DefaultExportOptions := ExportOptions(Png, 0.92)
}
