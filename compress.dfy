/** The response side of the compression middleware: a response writer that, when the
    response's media type is one of a fixed set, announces the encoding in the
    Content-Encoding header and sends the body through the compressing sink instead
    of the plain response writer.

    The response writer is reduced to what the wrapper touches: its header map, the
    status codes forwarded to it and the chunks written to it. The compressing sink is
    reduced to the chunks written to it. What each writer answers to a write is a
    parameter of Write. */
module Compress {
  import opened Domain
  import opened GoStrings

  const ContentType: string := "Content-Type"
  const ContentEncoding: string := "Content-Encoding"

  /** The media types a gzip writer compresses, and the encoding it announces. */
  const GzipContentTypes: set<string> := {"application/json", "text/html"}
  const GzipFormat: string := "gzip"

  /** Header.Get: the value stored under the key, or "" when there is none. */
  function HeaderGet(header: map<string, string>, key: string): string
  {
    if key in header then header[key] else ""
  }

  /** The media type of a Content-Type value: everything before its first `;`, or the
      whole value when it has none. */
  function MediaType(contentType: string): (m: string)
    ensures m <= contentType && ';' !in m
    ensures ';' in contentType ==> contentType[|m|] == ';'
    ensures ';' !in contentType ==> m == contentType
  {
    var idx := IndexOf(contentType, ';');
    if idx >= 0 then contentType[0..idx] else contentType
  }

  /** isCompressible: the response's media type is one of `contentTypes`. So a
      compressible Content-Type starts with a listed type, and a Content-Type without
      parameters is compressible exactly when it is listed. */
  function Compressible(header: map<string, string>, contentTypes: set<string>): (b: bool)
    ensures b ==> exists m :: m in contentTypes && m <= HeaderGet(header, ContentType)
    ensures ';' !in HeaderGet(header, ContentType) ==> (b <==> HeaderGet(header, ContentType) in contentTypes)
  {
    MediaType(HeaderGet(header, ContentType)) in contentTypes
  }

  /** The header after WriteHeader: the encoding is announced exactly when the
      response is compressible. */
  function AnnouncedHeader(header: map<string, string>, contentTypes: set<string>, encodeFormat: string): (h: map<string, string>)
    ensures Compressible(header, contentTypes) ==> ContentEncoding in h && h[ContentEncoding] == encodeFormat
    ensures !Compressible(header, contentTypes) ==> h == header
    ensures h.Keys == header.Keys + if Compressible(header, contentTypes) then {ContentEncoding} else {}
    ensures forall k :: k in header && k != ContentEncoding ==> k in h && h[k] == header[k]
  {
    if Compressible(header, contentTypes) then header[ContentEncoding := encodeFormat] else header
  }

  /** A reference reading of isCompressible: when no listed type has a parameter part,
      a response is compressible exactly when its Content-Type is a listed type, alone
      or followed by `;` and parameters. */
  lemma CompressibleMeansListedType(header: map<string, string>, contentTypes: set<string>)
    requires forall m :: m in contentTypes ==> ';' !in m
    ensures var ct := HeaderGet(header, ContentType);
            Compressible(header, contentTypes) <==>
              exists m :: m in contentTypes && (ct == m || m + ";" <= ct)
  {
    var ct := HeaderGet(header, ContentType);
    var mt := MediaType(ct);
    if Compressible(header, contentTypes) {
      if ';' in ct {
        assert mt + ";" == ct[..|mt| + 1];
      }
    }
    if m :| m in contentTypes && (ct == m || m + ";" <= ct) {
      if ct != m {
        assert ct == m + ct[|m|..];
        IndexOfAfter(m, ct[|m|..], ';');
        assert mt == m;
      }
    }
  }

  /** Parameters after the media type never change the decision. */
  lemma ParametersIgnored(header: map<string, string>, contentTypes: set<string>, media: string, params: string)
    requires ';' !in media && params != [] && params[0] == ';'
    ensures Compressible(header[ContentType := media + params], contentTypes) <==> media in contentTypes
  {
    IndexOfAfter(media, params, ';');
    assert MediaType(media + params) == (media + params)[..|media|] == media;
  }

  /** A gzip writer compresses JSON with a charset parameter. */
  lemma GzipCompressesJson(header: map<string, string>)
    ensures Compressible(header[ContentType := "application/json" + ";charset=utf-8"], GzipContentTypes)
  {
    ParametersIgnored(header, GzipContentTypes, "application/json", ";charset=utf-8");
  }

  /** A gzip writer does not compress "text/plain". */
  lemma GzipSkipsPlainText(header: map<string, string>)
    ensures !Compressible(header[ContentType := "text/plain"], GzipContentTypes)
  {
    assert ';' !in "text/plain";
  }

  /** Announcing twice is announcing once: the Content-Type the decision reads is not
      the header that is written. */
  lemma AnnounceIdempotent(header: map<string, string>, contentTypes: set<string>, encodeFormat: string)
    ensures var h := AnnouncedHeader(header, contentTypes, encodeFormat);
            AnnouncedHeader(h, contentTypes, encodeFormat) == h
  {
    var h := AnnouncedHeader(header, contentTypes, encodeFormat);
    assert HeaderGet(h, ContentType) == HeaderGet(header, ContentType);
  }

  /** Where a chunk of the body goes. */
  datatype Sink = Plain | Compressed

  /** A writer's answer to one write: the count it reports and its error, if any. */
  datatype WriteReply = WriteReply(n: int, err: Option<string>)

  class CompressWriter {
    var header: map<string, string>
    const contentTypes: set<string>
    const encodeFormat: string
    /** The status codes forwarded to the response writer. */
    var forwarded: seq<int>
    /** The chunks written to the response writer and to the compressing sink. */
    var plainOut: seq<seq<bv8>>
    var compressedOut: seq<seq<bv8>>

    /** newGzipWriter: compresses JSON and HTML, announcing "gzip". */
    constructor NewGzipWriter(header: map<string, string>)
      ensures contentTypes == GzipContentTypes && encodeFormat == GzipFormat
      ensures this.header == header
      ensures forwarded == [] && plainOut == [] && compressedOut == []
    {
      this.header := header;
      contentTypes := GzipContentTypes;
      encodeFormat := GzipFormat;
      forwarded, plainOut, compressedOut := [], [], [];
    }

    /** writer(): the compressing sink exactly when the response is compressible. */
    function Writer(): (s: Sink)
      reads this
      ensures s == Compressed <==> Compressible(header, contentTypes)
    {
      if Compressible(header, contentTypes) then Compressed else Plain
    }

    /** Header().Set. */
    method SetHeader(key: string, value: string)
      modifies this`header
      ensures header == old(header)[key := value]
    {
      header := header[key := value];
    }

    /** WriteHeader: announces the encoding when compressible, and forwards the code
        in both cases. */
    method WriteHeader(code: int)
      modifies this`header, this`forwarded
      ensures header == AnnouncedHeader(old(header), contentTypes, encodeFormat)
      ensures forwarded == old(forwarded) + [code]
    {
      if !Compressible(header, contentTypes) {
        forwarded := forwarded + [code];
        return;
      }
      header := header[ContentEncoding := encodeFormat];
      forwarded := forwarded + [code];
    }

    /** Write: the chunk goes to the writer writer() selects, whose answer is returned. */
    method Write(b: seq<bv8>, plainReply: WriteReply, compressedReply: WriteReply) returns (r: WriteReply)
      modifies this`plainOut, this`compressedOut
      ensures Writer() == Compressed ==>
                compressedOut == old(compressedOut) + [b] && plainOut == old(plainOut) && r == compressedReply
      ensures Writer() == Plain ==>
                plainOut == old(plainOut) + [b] && compressedOut == old(compressedOut) && r == plainReply
    {
      var sink := Writer();
      if sink == Compressed {
        compressedOut := compressedOut + [b];
        r := compressedReply;
      } else {
        plainOut := plainOut + [b];
        r := plainReply;
      }
    }
  }
}
