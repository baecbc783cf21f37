/** The export dialog's pure logic: naming the exported file, choosing the
    encoder's MIME type and quality argument, and reading the MIME type back
    out of a `data:` URL header (the `data:[<mediatype>][;base64],<data>`
    syntax of section 2 of RFC 2397) before the payload is decoded. */
module ExportModal {
  import opened Base
  import opened Strings

  /** The three formats the dialog offers. */
  datatype ExportFormat = Png | Jpeg | Webp {
    /** The format string used both as extension and as MIME subtype. */
    function Name(): string
    {
      match this
      case Png => "png"
      case Jpeg => "jpeg"
      case Webp => "webp"
    }
  }

  const EditedSuffix: string := "_edited."
  const FallbackStem: string := "image"
  const NoCanvasMessage: string := "Canvas not available"

  /** Reference meaning of the stem: everything before the last `.`, or the
      whole name when it has none. */
  function Stem(name: string): string
  {
    match LastIndexOf(name, '.')
    case None => name
    case Some(i) => name[..i]
  }

  /** `getFileName`: split the original name on `.`, drop the last piece when
      there are several, join the rest with `.`, fall back to `"image"` when
      that is empty, and append `"_edited."` and the format. */
  function FileName(originalName: string, format: ExportFormat): (r: string)
    ensures var stem := Stem(originalName);
      r == (if stem == "" then FallbackStem else stem) + EditedSuffix + format.Name()
  {
    var parts := Split(originalName, '.');
    var kept := if |parts| > 1 then parts[..|parts| - 1] else parts;
    var joined := Join(kept, '.');
    var safeName := if joined == "" then FallbackStem else joined;
    JoinedStemIsStem(originalName);
    safeName + EditedSuffix + format.Name()
  }

  /** `getFileName`'s split, pop and join compute the reference stem. */
  lemma JoinedStemIsStem(name: string)
    ensures var parts := Split(name, '.');
      Join(if |parts| > 1 then parts[..|parts| - 1] else parts, '.') == Stem(name)
  {
    SplitSingle(name, '.');
    if '.' in name {
      DropLastPiece(name, '.');
    } else {
      JoinSplit(name, '.');
    }
  }

  /** The exported name always ends with `"_edited."` and the format string
      exactly as chosen (`jpeg`, never `jpg`). */
  lemma FileNameSuffix(originalName: string, format: ExportFormat)
    ensures var r := FileName(originalName, format);
      var tail := EditedSuffix + format.Name();
      |r| > |tail| && r[|r| - |tail|..] == tail
  {
  }

  /** Only the last `.`-segment goes; earlier dots stay in the stem. */
  lemma FileNameDropsLastSegment(before: string, ext: string, format: ExportFormat)
    requires '.' !in ext
    ensures FileName(before + "." + ext, format)
      == (if before == "" then FallbackStem else before) + EditedSuffix + format.Name()
  {
    LastIndexOfSplitPoint(before, '.', ext);
    assert (before + "." + ext)[..|before|] == before;
  }

  /** A name without a dot is kept whole. */
  lemma FileNameWithoutDot(name: string, format: ExportFormat)
    requires '.' !in name && name != ""
    ensures FileName(name, format) == name + EditedSuffix + format.Name()
  {
  }

  /** Inner dots stay: `"a.b.png"` exports as `"a.b_edited.png"`. */
  lemma FileNameKeepsInnerDot(x: string, y: string, ext: string, format: ExportFormat)
    requires '.' !in ext
    ensures FileName(x + "." + y + "." + ext, format) == x + "." + y + EditedSuffix + format.Name()
  {
    var before := x + "." + y;
    FileNameDropsLastSegment(before, ext, format);
    assert before != "" by { assert before[|x|] == '.'; }
  }

  /** A hidden-file name such as `".png"` has an empty stem and falls back
      to `"image"`. */
  lemma FileNameHiddenFallback(ext: string, format: ExportFormat)
    requires '.' !in ext
    ensures FileName("." + ext, format) == FallbackStem + EditedSuffix + format.Name()
  {
    FileNameDropsLastSegment("", ext, format);
    assert "" + "." + ext == "." + ext;
  }

  /** What `generateExportableDataURL` asks the canvas encoder for: a MIME
      type, and a quality argument only for the lossy formats. */
  datatype EncodeRequest = EncodeRequest(mimeType: string, quality: Option<real>)

  /** The MIME/quality branch of `generateExportableDataURL`; `quality` is the
      dialog's 10-100 slider value. */
  function ExportRequest(canvasAvailable: bool, format: ExportFormat, quality: real): (r: Result<EncodeRequest>)
    ensures !canvasAvailable <==> r == Err(NoCanvasMessage)
    ensures r.Ok? ==> (StartsWith(r.value.mimeType, "image/")
      && r.value.mimeType[|"image/"|..] == format.Name())
    ensures r.Ok? ==> (r.value.quality.None? <==> format == Png)
    ensures r.Ok? && r.value.quality.Some? ==> r.value.quality.value * 100.0 == quality
  {
    if !canvasAvailable then Err(NoCanvasMessage)
    else
      var mimeType := "image/" + format.Name();
      if format == Png then Ok(EncodeRequest(mimeType, None))
      else Ok(EncodeRequest(mimeType, Some(quality / 100.0)))
  }

  /** The characters the regular expression's `.` does not match. */
  predicate IsLineTerminator(ch: char)
  {
    ch == '\n' || ch == '\r' || ch == '\U{2028}' || ch == '\U{2029}'
  }

  /** No line terminator among `h[from..to]`. */
  predicate NoLineTerminator(h: string, from: nat, to: nat)
    requires from <= to <= |h|
  {
    forall k :: from <= k < to ==> !IsLineTerminator(h[k])
  }

  /** Where the lazy `(.*?);` started at `from` stops: the first `;` reached
      before any line terminator. */
  function LazyRunEnd(h: string, from: nat): (r: Option<nat>)
    requires from <= |h|
    ensures r.Some? ==> (from <= r.value < |h| && h[r.value] == ';'
      && NoLineTerminator(h, from, r.value)
      && forall k :: from <= k < r.value ==> h[k] != ';')
    ensures r.None? ==> forall j :: from <= j < |h| && h[j] == ';' ==> !NoLineTerminator(h, from, j)
    decreases |h| - from
  {
    if from == |h| then None
    else if h[from] == ';' then Some(from)
    else if IsLineTerminator(h[from]) then None
    else LazyRunEnd(h, from + 1)
  }

  /** `h.match(/:(.*?);/)` searched from position `i`: the leftmost `:` whose
      lazy run reaches a `;`, and the capture between them. */
  function MimeMatchFrom(h: string, i: nat): Option<string>
    requires i <= |h|
    decreases |h| - i
  {
    if i == |h| then None
    else if h[i] == ':' && LazyRunEnd(h, i + 1).Some? then Some(h[i + 1..LazyRunEnd(h, i + 1).value])
    else MimeMatchFrom(h, i + 1)
  }

  /** `h[i]` is a `:` and `h[j]` a later `;` on the same line. */
  predicate ColonThenSemicolon(h: string, i: int, j: int)
  {
    0 <= i < j < |h| && h[i] == ':' && h[j] == ';' && NoLineTerminator(h, i + 1, j)
  }

  /** The header has, from `from` on, a `:` followed by a `;` on the same
      line: what the regular expression needs to match at all. */
  predicate HasColonThenSemicolon(h: string, from: int)
  {
    exists i, j :: from <= i < j < |h| && ColonThenSemicolon(h, i, j)
  }

  /** The header match fails exactly when no `:` from `i` on is followed by
      a `;` on the same line. */
  lemma {:induction false} MimeMatchFromNone(h: string, i: nat)
    requires i <= |h|
    ensures MimeMatchFrom(h, i).None? <==> !HasColonThenSemicolon(h, i)
    decreases |h| - i
  {
    if i < |h| {
      var run := LazyRunEnd(h, i + 1);
      if h[i] == ':' && run.Some? {
        assert ColonThenSemicolon(h, i, run.value);
      } else {
        MimeMatchFromNone(h, i + 1);
        if HasColonThenSemicolon(h, i) {
          var i', j :| i <= i' < j < |h| && ColonThenSemicolon(h, i', j);
          assert HasColonThenSemicolon(h, i + 1);
        }
      }
    }
  }

  /** Reference meaning of the header match on a single-line header: the text
      from the first `:` up to the next `;`. */
  function HeaderMime(h: string): Option<string>
  {
    match IndexOfFrom(h, ':', 0)
    case None => None
    case Some(i) =>
      match IndexOfFrom(h, ';', i + 1)
      case None => None
      case Some(j) => Some(h[i + 1..j])
  }

  /** On a header without line terminators the lazy run ends at the next `;`. */
  lemma LazyRunEndIsIndexOf(h: string, from: nat)
    requires from <= |h| && NoLineTerminator(h, 0, |h|)
    ensures LazyRunEnd(h, from) == IndexOfFrom(h, ';', from)
  {
  }

  lemma {:induction false} MimeMatchFromIsHeaderMime(h: string, i: nat)
    requires i <= |h| && NoLineTerminator(h, 0, |h|)
    requires forall k :: 0 <= k < i ==> h[k] != ':'
    ensures MimeMatchFrom(h, i) == HeaderMime(h)
    decreases |h| - i
  {
    if i < |h| {
      LazyRunEndIsIndexOf(h, i + 1);
      if h[i] == ':' {
        if LazyRunEnd(h, i + 1).None? {
          NoMatchAfter(h, i + 1);
        }
      } else {
        MimeMatchFromIsHeaderMime(h, i + 1);
      }
    }
  }

  /** With no `;` from `i` on, no `:` from `i` on can start a match. */
  lemma {:induction false} NoMatchAfter(h: string, i: nat)
    requires i <= |h|
    requires forall k :: i <= k < |h| ==> h[k] != ';'
    ensures MimeMatchFrom(h, i) == None
    decreases |h| - i
  {
    if i < |h| {
      NoMatchAfter(h, i + 1);
    }
  }

  /** The header match is the text between the first `:` and the next `;`
      whenever the header is a single line. */
  lemma MimeMatchSingleLine(h: string)
    requires NoLineTerminator(h, 0, |h|)
    ensures MimeMatchFrom(h, 0) == HeaderMime(h)
  {
    MimeMatchFromIsHeaderMime(h, 0);
  }

  /** The part of a `data:` URL `dataURLtoFile` keeps before decoding: the
      MIME type from the header and the base64 text handed to `atob`. */
  datatype DataUrlParts = DataUrlParts(mime: string, payload: string)

  /** The header-parsing part of `dataURLtoFile`: `null` when the URL has no
      `,` or the header before the first `,` has no `:` followed by a `;` on
      the same line. */
  function ParseDataUrl(url: string): (r: Option<DataUrlParts>)
    ensures r.None? <==> ',' !in url || !HasColonThenSemicolon(Split(url, ',')[0], 0)
    ensures r.Some? ==> ';' !in r.value.mime && ',' !in r.value.mime && ',' !in r.value.payload
    ensures r.Some? ==> ':' in url
  {
    var arr := Split(url, ',');
    SplitSingle(url, ',');
    MimeMatchFromNone(arr[0], 0);
    if |arr| < 2 then None
    else
      match MimeMatchFrom(arr[0], 0)
      case None => None
      case Some(m) =>
        MatchHasColon(arr[0], 0);
        HeaderIsPrefix(url);
        Some(DataUrlParts(m, arr[1]))
  }

  /** On a single-line header, `dataURLtoFile` succeeds exactly when the URL
      has a `,` and the header has a `:` followed later by a `;`, and the MIME
      type is the text between the first `:` and the next `;`. */
  lemma ParseDataUrlSingleLine(url: string)
    requires NoLineTerminator(Split(url, ',')[0], 0, |Split(url, ',')[0]|)
    ensures var header := Split(url, ',')[0];
      && (ParseDataUrl(url).Some? <==> ',' in url && HeaderMime(header).Some?)
      && (ParseDataUrl(url).Some? ==> ParseDataUrl(url).value.mime == HeaderMime(header).value)
  {
    var arr := Split(url, ',');
    MimeMatchSingleLine(arr[0]);
    SplitSingle(url, ',');
    if |arr| >= 2 && MimeMatchFrom(arr[0], 0).Some? {
      assert ParseDataUrl(url) == Some(DataUrlParts(MimeMatchFrom(arr[0], 0).value, arr[1]));
    }
  }

  /** A successful match starts at a `:` of the header and captures no `;`. */
  lemma {:induction false} MatchHasColon(h: string, i: nat)
    requires i <= |h| && MimeMatchFrom(h, i).Some?
    ensures exists k :: i <= k < |h| && h[k] == ':'
    ensures ';' !in MimeMatchFrom(h, i).value
    ensures forall ch :: ch !in h ==> ch !in MimeMatchFrom(h, i).value
    decreases |h| - i
  {
    if !(h[i] == ':' && LazyRunEnd(h, i + 1).Some?) {
      MatchHasColon(h, i + 1);
    }
  }

  /** The first piece of a split is a prefix of the string. */
  lemma HeaderIsPrefix(url: string)
    ensures |Split(url, ',')[0]| <= |url| && Split(url, ',')[0] == url[..|Split(url, ',')[0]|]
  {
    JoinSplit(url, ',');
    var parts := Split(url, ',');
    if |parts| > 1 {
      assert Join(parts, ',') == parts[0] + [','] + Join(parts[1..], ',');
    }
  }

  /** The header `dataURLtoFile` sees for a base64 data URL of `mime`
      matches to `mime`, and holds no comma. */
  lemma Base64HeaderMatch(mime: string)
    requires NoLineTerminator(mime, 0, |mime|)
    requires ';' !in mime && ',' !in mime
    ensures var header := "data:" + mime + ";base64";
      ',' !in header && MimeMatchFrom(header, 0) == Some(mime)
  {
    var header := "data:" + mime + ";base64";
    assert forall k :: 5 <= k < 5 + |mime| ==> header[k] == mime[k - 5];
    assert ',' !in header by {
      assert forall k :: 0 <= k < |header| ==> header[k] == ("data:" + mime + ";base64")[k];
    }
    assert NoLineTerminator(header, 0, |header|);
    MimeMatchSingleLine(header);
    assert IndexOfFrom(header, ':', 0) == Some(4) by {
      assert header[4] == ':';
    }
    assert IndexOfFrom(header, ';', 5) == Some(5 + |mime|) by {
      assert header[5 + |mime|] == ';';
    }
    assert header[5..5 + |mime|] == mime;
  }

  /** Round trip: the header of a base64 data URL built from a MIME type gives
      that MIME type back, and the payload is the text after the comma. */
  lemma ParseDataUrlRoundTrip(mime: string, payload: string)
    requires NoLineTerminator(mime, 0, |mime|)
    requires ';' !in mime && ',' !in mime && ',' !in payload
    ensures ParseDataUrl("data:" + mime + ";base64," + payload) == Some(DataUrlParts(mime, payload))
  {
    var header := "data:" + mime + ";base64";
    Base64HeaderMatch(mime);
    var url := "data:" + mime + ";base64," + payload;
    assert url == header + [','] + payload;
    SplitAfterPiece(header, ',', payload);
    SplitSingle(payload, ',');
    assert Split(url, ',') == [header, payload];
  }

  /** What the encoder produces for an export request parses back to the
      request's MIME type, `"image/"` and the format. */
  lemma ExportMimeRoundTrip(format: ExportFormat, quality: real, payload: string)
    requires ',' !in payload
    ensures var req := ExportRequest(true, format, quality);
      req.Ok? &&
      ParseDataUrl("data:" + req.value.mimeType + ";base64," + payload)
        == Some(DataUrlParts("image/" + format.Name(), payload))
  {
    var mime := "image/" + format.Name();
    assert forall k :: 0 <= k < |mime| ==> mime[k] != ';' && mime[k] != ',' && !IsLineTerminator(mime[k]) by {
      match format
      case Png =>
      case Jpeg =>
      case Webp =>
    }
    ParseDataUrlRoundTrip(mime, payload);
  }
}
