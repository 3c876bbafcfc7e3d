/** The data URL of an uploaded image, `<mime>/<ext>;base64,<body>`, as
    `save_image_data` takes it apart (src/message_loop.rs:60-72): the header
    is the text before the first `;base64,`, the body the text between the
    first and the second, and the extension the second `/`-piece of the
    header. The layout follows the `data:` URL scheme of RFC 2397, section
    3, without its `data:` prefix being checked. */
module ImageData {
  import opened Wrappers
  import Strings

  const Marker: string := ";base64,"

  /** The extension and the base64 body of a data URL. */
  datatype Parts = Parts(extension: string, body: string)

  /** `save_image_data` up to the file name: splitting always yields a
      header, so only a missing body and a header without `/` are errors. */
  function ParseImageData(data: string): Result<Parts> {
    var pieces := Strings.Split(data, Marker);
    var header := pieces[0];
    if |pieces| < 2 then Fail("image data " + data + " doesn't have a body")
    else
      var body := pieces[1];
      var headerPieces := Strings.Split(header, "/");
      if |headerPieces| < 2 then Fail("image header " + header + " doesn't contain an extenstion")
      else Ok(Parts(headerPieces[1], body))
  }

  /** A split has a second piece exactly when the separator occurs. */
  lemma SplitHasSecond(s: string, sep: string)
    requires |sep| > 0
    ensures |Strings.Split(s, sep)| >= 2 <==> Strings.Find(s, sep).Some?
  {
  }

  /** The data is accepted exactly when it holds the marker and the text
      before the marker holds a `/`. */
  lemma ParseImageDataAccepts(data: string)
    ensures ParseImageData(data).Ok? <==>
      Strings.Find(data, Marker).Some? && Strings.Find(Strings.Split(data, Marker)[0], "/").Some?
  {
    SplitHasSecond(data, Marker);
    SplitHasSecond(Strings.Split(data, Marker)[0], "/");
  }

  lemma MarkerUnbordered()
    ensures Strings.Unbordered(Marker)
  {
    Strings.UniqueLastCharUnbordered(Marker);
  }

  /** A header and a body without `;`, joined by the marker and followed by
      anything, split into the header and what the body starts. */
  lemma SplitAtMarker(header: string, body: string, rest: string)
    requires Strings.FreeOf(header, ';') && Strings.FreeOf(body, ';')
    ensures Strings.Split(header + Marker + body + rest, Marker)[..1] == [header]
    ensures rest == "" ==> Strings.Split(header + Marker + body, Marker) == [header, body]
  {
    MarkerUnbordered();
    Strings.FreeOfFirstChar(header, Marker);
    Strings.FreeOfFirstChar(body, Marker);
    assert header + Marker + body + rest == header + Marker + (body + rest);
    Strings.SplitAfterFreePrefix(header, Marker, body + rest);
    if rest == "" {
      assert body + rest == body;
    }
  }

  /** An image's data URL is read back as its extension and body. */
  lemma ParseImageDataRoundTrip(mime: string, ext: string, body: string)
    requires Strings.FreeOf(mime, '/') && Strings.FreeOf(mime, ';') && Strings.FreeOf(ext, '/') && Strings.FreeOf(ext, ';')
    requires Strings.FreeOf(body, ';')
    ensures ParseImageData(mime + "/" + ext + Marker + body) == Ok(Parts(ext, body))
  {
    var header := mime + "/" + ext;
    assert Strings.FreeOf(header, ';') by {
      forall i | 0 <= i < |header|
        ensures header[i] != ';'
      {
        if i < |mime| {
          assert header[i] == mime[i];
        } else if i > |mime| {
          assert header[i] == ext[i - |mime| - 1];
        }
      }
    }
    SplitAtMarker(header, body, "");
    assert header + Marker + body + "" == header + Marker + body;
    Strings.FreeOfFirstChar(mime, "/");
    Strings.FreeOfFirstChar(ext, "/");
    Strings.SplitAfterFreePrefix(mime, "/", ext);
  }

  /** Only the text up to the second marker is the body; whatever follows
      it is ignored. */
  lemma ExtraPiecesIgnored(header: string, body: string, rest: string)
    requires Strings.FreeOf(header, ';') && Strings.FreeOf(body, ';')
    ensures ParseImageData(header + Marker + body + Marker + rest) == ParseImageData(header + Marker + body)
  {
    MarkerUnbordered();
    Strings.FreeOfFirstChar(header, Marker);
    Strings.FreeOfFirstChar(body, Marker);
    var long := header + Marker + body + Marker + rest;
    assert long == header + Marker + (body + Marker + rest);
    Strings.SplitAfterFreePrefix(header, Marker, body + Marker + rest);
    Strings.SplitAfterFreePrefix(body, Marker, rest);
    SplitAtMarker(header, body, "");
    assert header + Marker + body + "" == header + Marker + body;
  }
}
