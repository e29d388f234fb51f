/** The record shapes that cross the boundary between the API and the web client. */
module Records {

  /** A processed document as the API returns it (`/upload-resume`, `/insights`). */
  datatype Insight = Insight(
    id: nat,
    filename: string,
    uploadDate: string,
    summary: string,
    isAiGenerated: bool,
    wordCount: nat)

  /** An HTTP error response: its status code and the `detail` message of its body. */
  datatype HttpError = HttpError(status: nat, detail: string)
}
