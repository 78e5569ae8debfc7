/** The run configuration of the downloader. */
module Config {
  /** Which jobs the listing asks for. */
  datatype DownloadKind = Grids | Upscales | All

  /** The settings of one `download` call, fixed for the whole run. */
  datatype Parameters = Parameters(
    kind: DownloadKind,
    orderBy: string,
    dateFolders: bool,
    groupByMonth: bool,
    skipLowRated: bool)
}
