/** The records the server exchanges with its clients as JSON. */
module Dto {

  /** The snapshot of one download. */
  datatype DownloadItemDto = DownloadItemDto(
    Id: int,
    Url: string,
    Filename: string,
    Filepath: string,
    Active: bool,
    Completed: bool,
    Downloaded: int,
    Size: int,
    Err: string)

  /** The form fields of an add request. */
  datatype AddDownloadDto = AddDownloadDto(Url: string, Dir: string, Filename: string)

  /** The answer to a successful add request. */
  datatype FileResponse = FileResponse(Id: int, Filename: string)
}
