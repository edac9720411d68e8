/** The messages exchanged between the webview script and the extension
    host, each a JSON object told apart by its `type` field. */
module Protocol {
  import opened Wrappers

  /** A `type` the host has no case for: anything but the three tags it
      dispatches. */
  type UnknownTag = tag: string | tag !in {"analyzeAndChat", "selectFiles", "removeFile"} witness ""

  /** Messages the webview posts to the host. `text` is missing when the
      message carries none; a `type` the host does not know is kept with its
      tag, which is never one of the three it dispatches. */
  datatype HostMessage =
    | AnalyzeAndChat(text: Option<string>)
    | SelectFiles
    | RemoveFile(index: int)
    | UnknownMessage(tag: UnknownTag)

  /** Messages the host posts to the webview. */
  datatype ViewMessage =
    | SetIcons(attachIconUri: string, playIconUri: string)
    | ChatgptResponse(text: string)
    | SelectedFiles(files: seq<string>)
}
