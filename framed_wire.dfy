/** The JSON objects the framed variant exchanges, as datatypes. JSON text
    itself is not modelled; a field that an object may lack is an Option. */
module FramedWire {
  import opened Results

  /** A client request. Only the fields the server reads are kept. */
  datatype Request = Request(command: Option<string>, filePath: Option<string>, fileData: Option<string>)

  /** A server message. */
  datatype Response =
    | ErrorReply(message: string)                                   // status "error"
    | Ready(checksum: string, totalChunks: nat, filePath: string)   // status "ready"
    | ChunkMsg(sequence: nat, data: string)                         // type "chunk", data in base16
    | End(message: string)                                          // type "end"

  /** The upload request the client builds. */
  function UploadRequest(path: string, data: string): Request
  {
    Request(Some("upload"), Some(path), Some(data))
  }
}
