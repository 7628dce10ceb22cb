/** What a handler says about its reply, and how far the engine is with it (ioxd_response). */
module ResponseState {
  import opened Bytes

  /** text/plain */
  const TEXT: bytes := [116, 101, 120, 116, 47, 112, 108, 97, 105, 110]

  class Response {
    var status: int
    var contentType: bytes
    var ownType: bool
    /** The lines a handler added, without their CRLF. */
    var lines: seq<bytes>
    var hasLength: bool
    var contentLength: nat
    var close: bool
    var headSent: bool
    var chunked: bool
    var failed: bool
    var bodySent: nat

    constructor ()
      ensures contentType == TEXT && contentLength == 0
      ensures status == 200 && lines == [] && !hasLength && !close && !headSent && !chunked && !failed && bodySent == 0
    {
      status, contentType, lines := 200, TEXT, [];
      ownType := false;
      hasLength, contentLength, close, headSent, chunked, failed, bodySent := false, 0, false, false, false, false, 0;
    }
  }
}
