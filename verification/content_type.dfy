/**
 * Content-type negotiation middleware: the table of supported formats and
 * their data writers, the Content-Type each writer announces, and the
 * handler that picks a writer for each request from its Accept header.
 */
module ContentType {
  import opened Wrappers
  import opened Text
  import opened Routing
  import opened Negotiator

  /** The formats supported out of the box and their writers; "text/xml" is written as XML. */
  const DataWriters: map<string, DataWriter> := map[
    MIME_JSON := JSONDataWriter,
    MIME_XML := XMLDataWriter,
    MIME_XML2 := XMLDataWriter,
    MIME_HTML := HTMLDataWriter]

  /** The Content-Type each built-in writer sets: JSON as is, XML and HTML with a UTF-8 charset. */
  lemma WriterContentTypes()
    ensures ContentTypeOf(JSONDataWriter) == "application/json"
    ensures ContentTypeOf(XMLDataWriter) == "application/xml; charset=UTF-8"
    ensures ContentTypeOf(HTMLDataWriter) == "text/html; charset=UTF-8"
  {
  }

  /**
   * The built-in table: four formats, each answered with a Content-Type of
   * its own media type except "text/xml", which is answered as "application/xml".
   */
  lemma DefaultWriterTable()
    ensures DataWriters.Keys == {MIME_JSON, MIME_XML, MIME_XML2, MIME_HTML}
    ensures ContentTypeOf(DataWriters[MIME_JSON]) == MIME_JSON
    ensures ContentTypeOf(DataWriters[MIME_XML]) == MIME_XML + "; charset=UTF-8"
    ensures ContentTypeOf(DataWriters[MIME_XML2]) == ContentTypeOf(DataWriters[MIME_XML])
    ensures ContentTypeOf(DataWriters[MIME_HTML]) == MIME_HTML + "; charset=UTF-8"
  {
  }

  /** The formats a handler was built for, captured when TypeNegotiator ran. */
  datatype TypeHandler = TypeHandler(formats: seq<string>)

  /** The formats TypeNegotiator works with: those given, or HTML alone when none are. */
  function WithDefault(formats: seq<string>): seq<string>
  {
    if |formats| == 0 then [MIME_HTML] else formats
  }

  /**
   * TypeNegotiator: builds the handler for the given formats, each of which
   * must have a writer. The panic on an unsupported format is the Failure
   * carrying the panic message, naming the first such format.
   */
  method TypeNegotiator(formats: seq<string>, writers: map<string, DataWriter>) returns (r: Result<TypeHandler, string>)
    ensures r.Success? <==> forall f :: f in WithDefault(formats) ==> f in writers
    ensures r.Success? ==> r.value.formats == WithDefault(formats) && |r.value.formats| > 0
    ensures r.Success? && formats == [] ==> r.value.formats == [MIME_HTML]
    ensures r.Failure? ==> exists i :: (0 <= i < |WithDefault(formats)| && WithDefault(formats)[i] !in writers
      && (forall j :: 0 <= j < i ==> WithDefault(formats)[j] in writers)
      && r.error == WithDefault(formats)[i] + " is not supported")
  {
    var fs := formats;
    if |fs| == 0 {
      fs := [MIME_HTML];
    }
    for i := 0 to |fs|
      invariant forall j :: 0 <= j < i ==> fs[j] in writers
    {
      if fs[i] !in writers {
        return Failure(fs[i] + " is not supported");
      }
    }
    return Success(TypeHandler(fs));
  }

  /**
   * The format the handler negotiates for an Accept header: always one of
   * its formats, the first being the fallback.
   */
  function HandlerFormat(h: TypeHandler, accept: string, parse: FloatParser): (f: string)
    requires |h.formats| > 0
    ensures f in h.formats
  {
    NegotiatedIsOfferOrDefault(accept, h.formats, h.formats[0], parse);
    Negotiated(accept, h.formats, h.formats[0], parse)
  }

  /**
   * The handler TypeNegotiator returns: negotiate a format against the
   * request's Accept header, install its writer and set the Content-Type
   * that writer announces. A format missing from the writer table at this
   * point installs a nil writer (None) and sets no header.
   */
  method Handle(h: TypeHandler, c: Context, writers: map<string, DataWriter>, parse: FloatParser)
    returns (err: Option<string>)
    requires |h.formats| > 0
    modifies c
    ensures err == None
    ensures var f := HandlerFormat(h, Peek(c.header, "Accept"), parse);
      c.writer == (if f in writers then Some(writers[f]) else None)
    ensures var f := HandlerFormat(h, Peek(c.header, "Accept"), parse);
      c.responseHeader == if f in writers then old(c.responseHeader)["Content-Type" := ContentTypeOf(writers[f])]
        else old(c.responseHeader)
    ensures (forall f :: f in h.formats ==> f in writers) ==> c.writer.Some? && "Content-Type" in c.responseHeader
    ensures c.status == old(c.status) && c.aborted == old(c.aborted)
  {
    var format := NegotiateContentType(Peek(c.header, "Accept"), h.formats, h.formats[0], parse);
    c.SetDataWriter(if format in writers then Some(writers[format]) else None);
    err := None;
  }

  /** An unknown format is refused with the message the panic carries. */
  method UnknownFormatRefused() returns (r: Result<TypeHandler, string>)
    ensures r == Failure("unknown" + " is not supported")
  {
    assert "unknown" !in DataWriters;
    assert WithDefault(["unknown"]) == ["unknown"];
    r := TypeNegotiator(["unknown"], DataWriters);
    assert !(forall f :: f in ["unknown"] ==> f in DataWriters);
    assert r.Failure?;
  }

  /** A handler with a single format answers it whatever the Accept header asks for. */
  lemma SingleFormatAlwaysChosen(f: string, accept: string, parse: FloatParser)
    ensures HandlerFormat(TypeHandler([f]), accept, parse) == f
  {
    assert HandlerFormat(TypeHandler([f]), accept, parse) in [f];
  }

  /** Without formats, the handler answers HTML whatever the Accept header asks for. */
  lemma NoFormatsMeansHTML(accept: string, parse: FloatParser)
    ensures HandlerFormat(TypeHandler(WithDefault([])), accept, parse) == MIME_HTML
  {
    SingleFormatAlwaysChosen(MIME_HTML, accept, parse);
  }

  /** Against the formats `t/a` and `t/b`, an Accept header asking for exactly `t/b` picks `t/b`. */
  lemma ExactRangePicksIt(t: string, a: string, b: string, parse: FloatParser)
    requires '/' !in t && ';' !in t && ';' !in a && ';' !in b && ',' !in t && ',' !in b
    requires NoSpace(t) && NoSpace(a) && NoSpace(b)
    requires t != "*" && b != "*" && a != b
    ensures HandlerFormat(TypeHandler([t + "/" + a, t + "/" + b]), t + "/" + b, parse) == t + "/" + b
  {
    var fa, fb := t + "/" + a, t + "/" + b;
    ParseTypeSubtype(t, a, parse);
    ParseTypeSubtype(t, b, parse);
    assert ',' !in fb;
    AcceptRangesSingle(fb, parse);
    var ra, rb := ParseAcceptRange(fa, parse), ParseAcceptRange(fb, parse);
    assert ParseAll([fa, fb], parse) == [ra, rb] by {
      assert [fa, fb][..1] == [fa];
    }
    var b0 := Initial(ra);
    assert ScanAccepts(b0, ra, [rb]) == Step(b0, ra, rb) == b0;
    SharedKeysBound(map[], map[]);
    assert ScanAccepts(b0, rb, [rb]) == Step(b0, rb, rb);
    assert ScanOffers(b0, [ra, rb], [rb]) == ScanAccepts(ScanOffers(b0, [ra], [rb]), rb, [rb]) by {
      assert [ra, rb][..1] == [ra];
    }
  }

  /** An Accept header none of whose ranges covers any of the formats gets the first format. */
  lemma UnmatchedRangePicksFirst(h: TypeHandler, accept: string, parse: FloatParser)
    requires |h.formats| > 0
    requires forall o, a :: o in ParseAll(h.formats, parse) && a in AcceptRanges(accept, parse) ==> !Matches(a, o)
    ensures HandlerFormat(h, accept, parse) == h.formats[0]
  {
    ScanOffersNoMatch(Initial(ParseAcceptRange(h.formats[0], parse)), ParseAll(h.formats, parse), AcceptRanges(accept, parse));
  }

  /** Against the formats `t/a` and `t/b`, an Accept header asking for some other `t/c` falls back to `t/a`. */
  lemma OtherSubtypeFallsBack(t: string, a: string, b: string, c: string, parse: FloatParser)
    requires '/' !in t && ';' !in t && ';' !in a && ';' !in b && ';' !in c && ',' !in t && ',' !in c
    requires NoSpace(t) && NoSpace(a) && NoSpace(b) && NoSpace(c)
    requires t != "*" && c != "*" && c != a && c != b
    ensures HandlerFormat(TypeHandler([t + "/" + a, t + "/" + b]), t + "/" + c, parse) == t + "/" + a
  {
    var fa, fb, fc := t + "/" + a, t + "/" + b, t + "/" + c;
    ParseTypeSubtype(t, a, parse);
    ParseTypeSubtype(t, b, parse);
    ParseTypeSubtype(t, c, parse);
    assert ',' !in fc;
    AcceptRangesSingle(fc, parse);
    var ra, rb := ParseAcceptRange(fa, parse), ParseAcceptRange(fb, parse);
    assert ParseAll([fa, fb], parse) == [ra, rb] by {
      assert [fa, fb][..1] == [fa];
    }
    UnmatchedRangePicksFirst(TypeHandler([fa, fb]), fc, parse);
  }

  /**
   * The scoring behind versioned formats: offers `t/j` with parameter k=v2,
   * `t/j` with k=v1 and `t/x`, against the ranges `t/x` and `t/j` with k=v1.
   * Every offer scores the same, so the parameter count decides: the
   * offer sharing k=v1 replaces the first, and `t/x`, sharing nothing,
   * does not replace it.
   */
  lemma MatchingParameterWins(t: string, j: string, x: string, k: string, v1: string, v2: string, raw1: string, raw2: string, rawx: string)
    requires t != "*" && j != "*" && x != "*" && j != x && v1 != v2
    ensures var r1, r2, rx := AcceptRange(t, j, 1.0, map[k := v1], raw1), AcceptRange(t, j, 1.0, map[k := v2], raw2),
      AcceptRange(t, x, 1.0, map[], rawx);
      NegotiatedRaw([rx, r1], [r2, r1, rx], r2) == raw1
  {
    var p1, p2: map<string, string> := map[k := v1], map[k := v2];
    var r1 := AcceptRange(t, j, 1.0, p1, raw1);
    var r2 := AcceptRange(t, j, 1.0, p2, raw2);
    var rx := AcceptRange(t, x, 1.0, map[], rawx);
    var accepts := [rx, r1];
    assert SharedKeys(p1, p2) == {};
    assert SharedKeys(p1, p1) == {k};
    SharedKeysBound(map[], map[]);
    var b0 := Initial(r2);
    var b1 := Best(raw2, 3.0, 0);
    var b2 := Best(raw1, 3.0, 1);
    assert Booster(rx) == 2.0 && Booster(r1) == 2.0;
    assert Step(Step(b0, r2, rx), r2, r1) == b1;
    assert Step(Step(b1, r1, rx), r1, r1) == b2;
    assert Step(Step(b2, rx, rx), rx, r1) == b2;
    ScanAcceptsPair(b0, r2, rx, r1);
    ScanAcceptsPair(b1, r1, rx, r1);
    ScanAcceptsPair(b2, rx, rx, r1);
    ScanOffersTriple(b0, r2, r1, rx, accepts);
  }

  /** The Accept header `t/x,t/j;k=v1` splits into its two ranges. */
  lemma VersionedAcceptIsPair(t: string, j: string, x: string, k: string, v1: string, parse: FloatParser)
    requires ',' !in t && ',' !in j && ',' !in x && ',' !in k && ',' !in v1
    requires NoSpace(t) && NoSpace(j) && NoSpace(x) && NoSpace(k) && NoSpace(v1)
    ensures var f1, fx := t + "/" + j + ";" + k + "=" + v1, t + "/" + x;
      AcceptRanges(fx + "," + f1, parse) == [ParseAcceptRange(fx, parse), ParseAcceptRange(f1, parse)]
  {
    var f1, fx := t + "/" + j + ";" + k + "=" + v1, t + "/" + x;
    NoSpaceJoin(t, '/', x);
    NoSpaceJoin(t, '/', j);
    NoSpaceJoin(k, '=', v1);
    NoSpaceJoin(t + "/" + j, ';', k + "=" + v1);
    assert fx == t + "/" + x && f1 == (t + "/" + j) + ";" + (k + "=" + v1);
    assert ',' !in f1;
    AcceptRangesPair(fx, f1, parse);
  }

  /**
   * Formats `t/j;k=v2`, `t/j;k=v1` and `t/x` against the Accept header
   * `t/x,t/j;k=v1`: the format carrying the requested version wins.
   */
  lemma MatchingParameterPicksVersion(t: string, j: string, x: string, k: string, v1: string, v2: string, parse: FloatParser)
    requires '/' !in t && ';' !in t && ';' !in j && ';' !in x && ';' !in k && ';' !in v1 && ';' !in v2 && '=' !in k
    requires ',' !in t && ',' !in j && ',' !in x && ',' !in k && ',' !in v1
    requires NoSpace(t) && NoSpace(j) && NoSpace(x) && NoSpace(k) && NoSpace(v1) && NoSpace(v2)
    requires t != "*" && j != "*" && x != "*" && j != x && v1 != v2 && k != "q"
    ensures var f1, f2, fx := t + "/" + j + ";" + k + "=" + v1, t + "/" + j + ";" + k + "=" + v2, t + "/" + x;
      HandlerFormat(TypeHandler([f2, f1, fx]), fx + "," + f1, parse) == f1
  {
    var f1, f2, fx := t + "/" + j + ";" + k + "=" + v1, t + "/" + j + ";" + k + "=" + v2, t + "/" + x;
    ParseTypeSubtypeParam(t, j, k, v1, parse);
    ParseTypeSubtypeParam(t, j, k, v2, parse);
    ParseTypeSubtype(t, x, parse);
    VersionedAcceptIsPair(t, j, x, k, v1, parse);
    ParseAllTriple(f2, f1, fx, parse);
    MatchingParameterWins(t, j, x, k, v1, v2, f1, f2, fx);
  }

  /** Formats `t/j;k=v2`, `t/j;k=v1` and `t/x` against an Accept header asking for some other `t/c`: the first format. */
  lemma VersionedOtherFallsBack(t: string, j: string, x: string, k: string, v1: string, v2: string, c: string, parse: FloatParser)
    requires '/' !in t && ';' !in t && ';' !in j && ';' !in x && ';' !in c && ';' !in k && ';' !in v1 && ';' !in v2 && '=' !in k
    requires ',' !in t && ',' !in c
    requires NoSpace(t) && NoSpace(j) && NoSpace(x) && NoSpace(c) && NoSpace(k) && NoSpace(v1) && NoSpace(v2)
    requires t != "*" && c != "*" && c != j && c != x
    ensures var f1, f2, fx := t + "/" + j + ";" + k + "=" + v1, t + "/" + j + ";" + k + "=" + v2, t + "/" + x;
      HandlerFormat(TypeHandler([f2, f1, fx]), t + "/" + c, parse) == f2
  {
    var f1, f2, fx, fc := t + "/" + j + ";" + k + "=" + v1, t + "/" + j + ";" + k + "=" + v2, t + "/" + x, t + "/" + c;
    ParseTypeSubtypeParam(t, j, k, v1, parse);
    ParseTypeSubtypeParam(t, j, k, v2, parse);
    ParseTypeSubtype(t, x, parse);
    ParseTypeSubtype(t, c, parse);
    assert ',' !in fc;
    AcceptRangesSingle(fc, parse);
    ParseAllTriple(f2, f1, fx, parse);
    UnmatchedRangePicksFirst(TypeHandler([f2, f1, fx]), fc, parse);
  }

  /** "application/xml" against JSON and XML picks XML. */
  lemma AcceptXMLPicksXML(parse: FloatParser)
    ensures HandlerFormat(TypeHandler([MIME_JSON, MIME_XML]), "application/xml", parse) == MIME_XML
  {
    assert "application" + "/" + "json" == MIME_JSON;
    assert "application" + "/" + "xml" == MIME_XML;
    ExactRangePicksIt("application", "json", "xml", parse);
  }

  /** "application/pdf" against JSON and XML falls back to JSON. */
  lemma AcceptPDFPicksJSON(parse: FloatParser)
    ensures HandlerFormat(TypeHandler([MIME_JSON, MIME_XML]), "application/pdf", parse) == MIME_JSON
  {
    assert "application" + "/" + "json" == MIME_JSON;
    assert "application" + "/" + "xml" == MIME_XML;
    assert "application" + "/" + "pdf" == "application/pdf";
    OtherSubtypeFallsBack("application", "json", "xml", "pdf", parse);
  }

  /** The pieces of the versioned formats hold no separator and no white space. */
  lemma VersionTextsWellFormed()
    ensures '/' !in "application" && ';' !in "application" && ',' !in "application" && NoSpace("application")
    ensures ';' !in "json" && ',' !in "json" && NoSpace("json")
    ensures ';' !in "xml" && ',' !in "xml" && NoSpace("xml")
    ensures ';' !in "v" && '=' !in "v" && ',' !in "v" && NoSpace("v")
    ensures ';' !in "1" && ',' !in "1" && NoSpace("1") && ';' !in "2" && NoSpace("2")
    ensures ';' !in "pdf" && ',' !in "pdf" && NoSpace("pdf")
  {
  }

  /** "application/xml,application/json;v=1" against the formats v2 JSON, v1 JSON and XML picks v1 JSON. */
  lemma AcceptVersionPicksV1(parse: FloatParser)
    ensures HandlerFormat(TypeHandler(["application/json;v=2", "application/json;v=1", MIME_XML]),
      "application/xml,application/json;v=1", parse) == "application/json;v=1"
  {
    assert "application" + "/" + "json" + ";" + "v" + "=" + "1" == "application/json;v=1";
    assert "application" + "/" + "json" + ";" + "v" + "=" + "2" == "application/json;v=2";
    assert "application" + "/" + "xml" == MIME_XML;
    assert MIME_XML + "," + "application/json;v=1" == "application/xml,application/json;v=1";
    VersionTextsWellFormed();
    MatchingParameterPicksVersion("application", "json", "xml", "v", "1", "2", parse);
  }

  /** "application/pdf" against the formats v2 JSON, v1 JSON and XML falls back to v2 JSON. */
  lemma AcceptPDFPicksV2(parse: FloatParser)
    ensures HandlerFormat(TypeHandler(["application/json;v=2", "application/json;v=1", MIME_XML]),
      "application/pdf", parse) == "application/json;v=2"
  {
    assert "application" + "/" + "json" + ";" + "v" + "=" + "1" == "application/json;v=1";
    assert "application" + "/" + "json" + ";" + "v" + "=" + "2" == "application/json;v=2";
    assert "application" + "/" + "xml" == MIME_XML;
    assert "application" + "/" + "pdf" == "application/pdf";
    VersionTextsWellFormed();
    VersionedOtherFallsBack("application", "json", "xml", "v", "1", "2", "pdf", parse);
  }

  /**
   * A GET request with the given Accept header, served by the handler
   * TypeNegotiator builds for `formats`: the Content-Type left on the
   * response is the one the negotiated format's writer announces.
   */
  method ServedContentType(formats: seq<string>, writers: map<string, DataWriter>, accept: string, parse: FloatParser)
    returns (ct: string)
    requires forall f :: f in WithDefault(formats) ==> f in writers
    ensures ct == ContentTypeOf(writers[HandlerFormat(TypeHandler(WithDefault(formats)), accept, parse)])
  {
    var r := TypeNegotiator(formats, writers);
    var c := new Context("GET", "/users/", map["Accept" := accept]);
    var _ := Handle(r.value, c, writers, parse);
    ct := c.responseHeader["Content-Type"];
  }

  /** With no formats, the handler sets the HTML Content-Type whatever the Accept header asks for. */
  method DefaultContentType(accept: string, parse: FloatParser) returns (ct: string)
    ensures ct == "text/html; charset=UTF-8"
  {
    assert WithDefault([]) == [MIME_HTML];
    ct := ServedContentType([], DataWriters, accept, parse);
    NoFormatsMeansHTML(accept, parse);
    WriterContentTypes();
  }

  /** JSON and XML offered, "application/xml" asked for: the XML Content-Type. */
  method AcceptedContentType(parse: FloatParser) returns (ct: string)
    ensures ct == "application/xml; charset=UTF-8"
  {
    ct := ServedContentType([MIME_JSON, MIME_XML], DataWriters, "application/xml", parse);
    AcceptXMLPicksXML(parse);
    WriterContentTypes();
  }

  /** JSON and XML offered, "application/pdf" asked for: the JSON Content-Type of the first format. */
  method FallbackContentType(parse: FloatParser) returns (ct: string)
    ensures ct == "application/json"
  {
    ct := ServedContentType([MIME_JSON, MIME_XML], DataWriters, "application/pdf", parse);
    AcceptPDFPicksJSON(parse);
    WriterContentTypes();
  }

  /** The writer table of the versioned formats: the built-in writers and one writer per JSON version. */
  function VersionedWriters(): (w: map<string, DataWriter>)
    ensures w.Keys == DataWriters.Keys + {"application/json;v=1", "application/json;v=2"}
  {
    DataWriters["application/json;v=1" := CustomDataWriter("application/json;v=1")]
      ["application/json;v=2" := CustomDataWriter("application/json;v=2")]
  }

  /** Each versioned JSON format is written by its own writer, and every versioned format has a writer. */
  lemma VersionedWriterTable()
    ensures VersionedWriters()["application/json;v=1"] == CustomDataWriter("application/json;v=1")
    ensures VersionedWriters()["application/json;v=2"] == CustomDataWriter("application/json;v=2")
    ensures forall f :: f in WithDefault(["application/json;v=2", "application/json;v=1", MIME_XML]) ==> f in VersionedWriters()
  {
    assert "application/json;v=1" != "application/json;v=2" by {
      assert "application/json;v=1"[19] != "application/json;v=2"[19];
    }
  }

  /** The versioned formats against "application/xml,application/json;v=1": the v1 Content-Type. */
  method VersionedContentType(parse: FloatParser) returns (ct: string)
    ensures ct == "application/json;v=1"
  {
    var formats := ["application/json;v=2", "application/json;v=1", MIME_XML];
    VersionedWriterTable();
    ct := ServedContentType(formats, VersionedWriters(), "application/xml,application/json;v=1", parse);
    AcceptVersionPicksV1(parse);
    assert ct == ContentTypeOf(CustomDataWriter("application/json;v=1"));
  }

  /** The versioned formats against "application/pdf": the Content-Type of the first format, v2. */
  method VersionedFallbackContentType(parse: FloatParser) returns (ct: string)
    ensures ct == "application/json;v=2"
  {
    var formats := ["application/json;v=2", "application/json;v=1", MIME_XML];
    VersionedWriterTable();
    ct := ServedContentType(formats, VersionedWriters(), "application/pdf", parse);
    AcceptPDFPicksV2(parse);
    assert ct == ContentTypeOf(CustomDataWriter("application/json;v=2"));
  }
}
