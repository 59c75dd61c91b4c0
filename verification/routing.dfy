/**
 * The part of the routing package's request context that the handlers of
 * this model touch: the request line and headers, and the response headers,
 * status code, data writer and abort flag that handlers set.
 */
module Routing {
  import opened Wrappers

  /** MIME types shared by the reader and the content writers. */
  const MIME_JSON: string := "application/json"
  const MIME_XML: string := "application/xml"
  const MIME_XML2: string := "text/xml"
  const MIME_HTML: string := "text/html"

  /**
   * The routing.DataWriter interface, closed over its implementations: the
   * three writers of the content package and any writer an application
   * registers, known here by the Content-Type it sets.
   */
  datatype DataWriter = JSONDataWriter | XMLDataWriter | HTMLDataWriter | CustomDataWriter(contentType: string)

  /** The media type a writer writes. */
  function WriterFormat(w: DataWriter): string
  {
    match w
    case JSONDataWriter => MIME_JSON
    case XMLDataWriter => MIME_XML
    case HTMLDataWriter => MIME_HTML
    case CustomDataWriter(contentType) => contentType
  }

  /**
   * The Content-Type response header a writer's SetHeader sets: its media
   * type, with a UTF-8 charset added for the text formats XML and HTML.
   */
  function ContentTypeOf(w: DataWriter): (ct: string)
    ensures ct == WriterFormat(w) || ct == WriterFormat(w) + "; charset=UTF-8"
    ensures ct == WriterFormat(w) <==> w.JSONDataWriter? || w.CustomDataWriter?
  {
    match w
    case JSONDataWriter => MIME_JSON
    case XMLDataWriter => MIME_XML + "; charset=UTF-8"
    case HTMLDataWriter => MIME_HTML + "; charset=UTF-8"
    case CustomDataWriter(contentType) => contentType
  }

  /** A header lookup that yields "" for an absent header, as fasthttp's Peek does. */
  function Peek(h: map<string, string>, name: string): (v: string)
    ensures name in h ==> v == h[name]
    ensures name !in h ==> v == ""
  {
    if name in h then h[name] else ""
  }

  /** The per-request context handed to every handler. */
  class Context {
    const requestMethod: string
    const path: string
    const header: map<string, string>
    var responseHeader: map<string, string>
    var status: int
    var aborted: bool
    var writer: Option<DataWriter>

    /** A fresh context: status 200, no response headers, no writer, not aborted. */
    constructor (requestMethod: string, path: string, header: map<string, string>)
      ensures this.requestMethod == requestMethod && this.path == path && this.header == header
      ensures responseHeader == map[] && status == 200 && !aborted && writer == None
    {
      this.requestMethod := requestMethod;
      this.path := path;
      this.header := header;
      responseHeader := map[];
      status := 200;
      aborted := false;
      writer := None;
    }

    predicate IsGet()
    {
      requestMethod == "GET"
    }

    /** Stops the handler chain: no later handler runs. */
    method Abort()
      modifies this
      ensures aborted
      ensures responseHeader == old(responseHeader) && status == old(status) && writer == old(writer)
    {
      aborted := true;
    }

    method SetHeader(name: string, value: string)
      modifies this
      ensures responseHeader == old(responseHeader)[name := value]
      ensures status == old(status) && aborted == old(aborted) && writer == old(writer)
    {
      responseHeader := responseHeader[name := value];
    }

    method SetStatusCode(code: int)
      modifies this
      ensures status == code
      ensures responseHeader == old(responseHeader) && aborted == old(aborted) && writer == old(writer)
    {
      status := code;
    }

    /**
     * Installs the writer for the response and lets it set its response
     * headers: the Content-Type it announces. None stands for a nil writer,
     * which sets nothing.
     */
    method SetDataWriter(w: Option<DataWriter>)
      modifies this
      ensures writer == w
      ensures w.Some? ==> responseHeader == old(responseHeader)["Content-Type" := ContentTypeOf(w.value)]
      ensures w.None? ==> responseHeader == old(responseHeader)
      ensures status == old(status) && aborted == old(aborted)
    {
      writer := w;
      if w.Some? {
        responseHeader := responseHeader["Content-Type" := ContentTypeOf(w.value)];
      }
    }
  }
}
