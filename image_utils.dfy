/**
 * `fileToBase64` (utils/imageUtils.ts): after the file's declared type is
 * checked, the data URL a FileReader produced (`data:<type>;base64,<payload>`,
 * the syntax of section 3 of RFC 2397) is cut into its media type and its
 * base64 payload. The read itself is an input: either the reader's `result`
 * string or a read error.
 */
module ImageUtils {
  import opened Wrappers
  import opened JsString

  /** `Base64Image`: the payload after the comma and the media type. */
  datatype Base64Image = Base64Image(base64: string, mimeType: string)

  /** What `reader.onload` or `reader.onerror` delivers. */
  datatype ReadOutcome = Loaded(result: string) | ReadFailed(detail: string)

  /** The four ways the promise is rejected. */
  datatype EncodeError = InvalidFileType | InvalidFileFormat | UnknownMimeType | ReadError(detail: string)

  const ReadErrorPrefix: string := "File reading error: "

  /** The message of the `Error` each rejection carries; a read error's ends with the reader's detail. */
  function Message(e: EncodeError): (m: string)
    ensures m != ""
    ensures e.ReadError? ==> |m| >= |ReadErrorPrefix| && m[|ReadErrorPrefix|..] == e.detail
  {
    match e
    case InvalidFileType => "Invalid file " + "type. Only images are accepted."
    case InvalidFileFormat => "Invalid file " + "format for base64 conversion."
    case UnknownMimeType => "Could not " + "determine mime type from data URL."
    case ReadError(detail) => ReadErrorPrefix + detail
  }

  /** Distinct rejections carry distinct messages: the message tells which check failed, and a read error's detail. */
  lemma MessageIdentifiesError(e1: EncodeError, e2: EncodeError)
    requires Message(e1) == Message(e2)
    ensures e1 == e2
  {
    var m := Message(e1);
    assert Message(InvalidFileType)[0] == 'I' && Message(InvalidFileFormat)[0] == 'I';
    assert Message(InvalidFileType)[13] == 't' && Message(InvalidFileFormat)[13] == 'f';
    assert Message(UnknownMimeType)[0] == 'C';
    if e1.ReadError? || e2.ReadError? {
      assert m[0] == 'F';
    }
  }

  /**
   * The settled promise, together with whether the advisory warning about an
   * unusual media type was written to the console.
   */
  datatype Encoded = Encoded(result: Result<Base64Image, EncodeError>, warned: bool)

  /*
   * The regular expression /:(.*?);/ without flags. `.` matches any character
   * except a line terminator, `.*?` is lazy, and `match` reports the match
   * that starts leftmost.
   */

  /** From `k` on, characters matched by `.` and no `;`, up to the `;` at `j`. */
  predicate DotsThenSemicolon(s: string, k: nat, j: nat)
  {
    k <= j < |s| && s[j] == ';' &&
    forall m :: k <= m < j ==> s[m] != ';' && !IsLineTerminator(s[m])
  }

  /** The expression matches with its `:` at `i` and its `;` at `j`. */
  predicate CaptureAt(s: string, i: nat, j: nat)
  {
    i < |s| && s[i] == ':' && DotsThenSemicolon(s, i + 1, j)
  }

  /** The match at `i`..`j` is the one reported: none starts further left. */
  ghost predicate LeftmostCapture(s: string, i: nat, j: nat)
  {
    CaptureAt(s, i, j) && forall i', j' :: 0 <= i' < i ==> !CaptureAt(s, i', j')
  }

  /** A match has one `;` only: the first one after its start. */
  lemma SemicolonUnique(s: string, k: nat, j1: nat, j2: nat)
    requires DotsThenSemicolon(s, k, j1) && DotsThenSemicolon(s, k, j2)
    ensures j1 == j2
  {
  }

  /** The lazy `(.*?);` tried from `k`: the first `;`, unless a line terminator comes first. */
  function LazyToSemicolon(s: string, k: nat): (r: Option<nat>)
    ensures r.Some? ==> DotsThenSemicolon(s, k, r.value)
    ensures r.None? ==> forall j :: !DotsThenSemicolon(s, k, j)
    decreases |s| - k
  {
    if k >= |s| then None
    else if s[k] == ';' then Some(k)
    else if IsLineTerminator(s[k]) then None
    else
      var r := LazyToSemicolon(s, k + 1);
      assert forall j :: DotsThenSemicolon(s, k, j) ==> DotsThenSemicolon(s, k + 1, j);
      r
  }

  /** The engine's scan for a match start, from `from` rightwards. */
  function MimeSearch(s: string, from: nat): (r: Option<(nat, nat)>)
    ensures r.Some? ==> from <= r.value.0 && CaptureAt(s, r.value.0, r.value.1)
    ensures r.Some? ==> forall i: nat, j: nat :: from <= i < r.value.0 ==> !CaptureAt(s, i, j)
    ensures r.None? ==> forall i: nat, j: nat :: from <= i ==> !CaptureAt(s, i, j)
    decreases |s| - from
  {
    if from >= |s| then None
    else if s[from] == ':' then
      match LazyToSemicolon(s, from + 1)
      case Some(j) => Some((from, j))
      case None => MimeSearch(s, from + 1)
    else MimeSearch(s, from + 1)
  }

  /** `s.match(/:(.*?);/)?.[1]`: the captured group of the leftmost match. */
  function MimeMatch(s: string): (r: Option<string>)
    ensures r.Some? <==> exists i: nat, j: nat :: CaptureAt(s, i, j)
    ensures r.Some? ==> exists i: nat, j: nat :: LeftmostCapture(s, i, j) && i < j && r.value == s[i + 1..j]
    ensures r.Some? ==> ';' !in r.value
  {
    match MimeSearch(s, 0)
    case None => None
    case Some(p) =>
      var v := s[p.0 + 1..p.1];
      assert forall m :: 0 <= m < |v| ==> v[m] == s[p.0 + 1 + m];
      assert LeftmostCapture(s, p.0, p.1);
      Some(v)
  }

  /**
   * When no line terminator occurs, the media type found is exactly the text
   * between the first `:` and the first `;` after it, and there is one
   * exactly when both exist.
   */
  lemma FirstColonToFirstSemicolon(s: string)
    requires forall k :: 0 <= k < |s| ==> !IsLineTerminator(s[k])
    ensures MimeMatch(s).Some? <==>
      IndexOfFrom(s, ':', 0).Some? && IndexOfFrom(s, ';', IndexOfFrom(s, ':', 0).value + 1).Some?
    ensures MimeMatch(s).Some? ==>
      var i := IndexOfFrom(s, ':', 0).value;
      MimeMatch(s).value == s[i + 1..IndexOfFrom(s, ';', i + 1).value]
  {
    var colon := IndexOfFrom(s, ':', 0);
    if colon.Some? {
      var i0 := colon.value;
      var semi := IndexOfFrom(s, ';', i0 + 1);
      if semi.Some? {
        var j0 := semi.value;
        assert CaptureAt(s, i0, j0);
        var v := MimeMatch(s).value;
        var i: nat, j: nat :| LeftmostCapture(s, i, j) && i < j && v == s[i + 1..j];
        assert i == i0;
        SemicolonUnique(s, i0 + 1, j, j0);
      } else {
        forall i: nat, j: nat | CaptureAt(s, i, j) ensures false { }
      }
    } else {
      forall i: nat, j: nat | CaptureAt(s, i, j) ensures false { }
    }
  }

  /**
   * The body of `reader.onload`: split the reader's string on `,`, require
   * exactly two pieces, and take the media type from the first piece.
   */
  function DecodeDataUrl(url: string): (r: Result<Base64Image, EncodeError>)
    ensures r == Failure(InvalidFileFormat) <==> Count(url, ',') != 1
    ensures r == Failure(UnknownMimeType) <==>
      var comma := IndexOfFrom(url, ',', 0);
      Count(url, ',') == 1 && comma.Some? && MimeMatch(url[..comma.value]).None?
    ensures r.Failure? ==> r.error == InvalidFileFormat || r.error == UnknownMimeType
    ensures r.Success? ==>
      var comma := IndexOfFrom(url, ',', 0);
      && comma.Some?
      && r.value.base64 == url[comma.value + 1..]
      && ',' !in r.value.base64
      && MimeMatch(url[..comma.value]) == Some(r.value.mimeType)
  {
    var parts := Split(url, ',');
    SplitCount(url, ',');
    if |parts| != 2 then Failure(InvalidFileFormat)
    else
      var comma := IndexOfFrom(url, ',', 0).value;
      assert parts[0] == url[..comma] && parts[1] == url[comma + 1..] by {
        assert url[..comma] + [','] + url[comma + 1..] == url;
        assert ',' !in url[..comma] by {
          forall k | 0 <= k < comma ensures url[..comma][k] != ',' { }
        }
        SplitAtFirst(url[..comma], ',', url[comma + 1..]);
        SplitUnique(url[comma + 1..], ',', [parts[1]]);
      }
      match MimeMatch(parts[0])
      case None => Failure(UnknownMimeType)
      case Some(mimeType) => Success(Base64Image(parts[1], mimeType))
  }

  /** The allow-list, checked on the lower-cased media type. */
  const SupportedMimeTypes: seq<string> := ["image/png", "image/jpeg", "image/webp", "image/heic", "image/heif"]

  /** Every type on the allow-list is an image type without `;` or `,`, whatever its letter case. */
  predicate IsSupported(mimeType: string): (r: bool)
    ensures r ==> StartsWith(ToLower(mimeType), "image/")
    ensures r ==> ';' !in mimeType && ',' !in mimeType
  {
    ToLower(mimeType) in SupportedMimeTypes
  }

  /** `fileToBase64(file)`, given the file's declared type and what the reader delivered. */
  function FileToBase64(declaredType: string, read: ReadOutcome): (r: Encoded)
    ensures !StartsWith(declaredType, "image/") ==> r.result == Failure(InvalidFileType)
    ensures StartsWith(declaredType, "image/") && read.ReadFailed? ==> r.result == Failure(ReadError(read.detail))
    ensures StartsWith(declaredType, "image/") && read.Loaded? ==> r.result == DecodeDataUrl(read.result)
    ensures r.warned <==> r.result.Success? && !IsSupported(r.result.value.mimeType)
  {
    if !StartsWith(declaredType, "image/") then Encoded(Failure(InvalidFileType), false)
    else
      match read
      case ReadFailed(detail) => Encoded(Failure(ReadError(detail)), false)
      case Loaded(url) =>
        var r := DecodeDataUrl(url);
        Encoded(r, r.Success? && !IsSupported(r.value.mimeType))
  }

  /** The declared-type guard runs before the read: its rejection does not depend on the reader. */
  lemma TypeGuardBeforeRead(declaredType: string, read1: ReadOutcome, read2: ReadOutcome)
    requires !StartsWith(declaredType, "image/")
    ensures FileToBase64(declaredType, read1) == FileToBase64(declaredType, read2)
    ensures FileToBase64(declaredType, read1).result == Failure(InvalidFileType)
  {
  }

  /**
   * The allow-list only warns: a decoding succeeds or fails by the same rule
   * whatever the media type's spelling or membership.
   */
  lemma AdvisoryNeverRejects(declaredType: string, read: ReadOutcome)
    ensures FileToBase64(declaredType, read).result.Success? <==>
      StartsWith(declaredType, "image/") && read.Loaded? && DecodeDataUrl(read.result).Success?
  {
  }

  /** The allow-list ignores letter case. */
  lemma SupportedIgnoresCase(a: string, b: string)
    requires ToLower(a) == ToLower(b)
    ensures IsSupported(a) <==> IsSupported(b)
  {
  }

  lemma SupportedExamples()
    ensures IsSupported("IMAGE/JPEG") && IsSupported("image/Heic")
    ensures !IsSupported("image/gif")
  {
    assert ToLower("IMAGE/JPEG") == "image/jpeg";
    assert ToLower("image/Heic") == "image/heic";
    assert ToLower("image/gif") == "image/gif";
  }

  /** A reader string with one comma decodes by the media type found before it. */
  lemma {:induction false} DecodeAtComma(prefix: string, b: string)
    requires ',' !in prefix && ',' !in b
    ensures DecodeDataUrl(prefix + [','] + b) ==
      match MimeMatch(prefix)
      case None => Failure(UnknownMimeType)
      case Some(m) => Success(Base64Image(b, m))
  {
    SplitAtFirst(prefix, ',', b);
    SplitUnique(b, ',', [b]);
    assert Split(prefix + [','] + b, ',') == [prefix, b];
  }

  /** The media type of `data:<m>;base64` is `m`. */
  lemma MimeOfDataPrefix(m: string)
    requires ';' !in m
    requires forall k :: 0 <= k < |m| ==> !IsLineTerminator(m[k])
    ensures MimeMatch("data:" + m + ";base64") == Some(m)
  {
    var prefix := "data:" + m + ";base64";
    var j0 := 5 + |m|;
    assert prefix[4] == ':' && prefix[j0] == ';';
    assert forall k :: 5 <= k < j0 ==> prefix[k] == m[k - 5];
    assert forall k :: 0 <= k < 4 ==> prefix[k] != ':';
    assert CaptureAt(prefix, 4, j0) by {
      forall k | 5 <= k < j0 ensures prefix[k] != ';' && !IsLineTerminator(prefix[k]) {
        assert m[k - 5] in m;
      }
    }
    var v := MimeMatch(prefix).value;
    var i: nat, j: nat :| LeftmostCapture(prefix, i, j) && i < j && v == prefix[i + 1..j];
    assert i == 4;
    SemicolonUnique(prefix, 5, j, j0);
    assert prefix[5..j0] == m;
  }

  /**
   * Round trip: a data URL built from a media type free of `;`, `,` and line
   * terminators and a payload free of `,` decodes to exactly that payload and
   * media type.
   */
  lemma RoundTrip(m: string, b: string)
    requires ';' !in m && ',' !in m
    requires forall k :: 0 <= k < |m| ==> !IsLineTerminator(m[k])
    requires ',' !in b
    ensures DecodeDataUrl("data:" + m + ";base64," + b) == Success(Base64Image(b, m))
  {
    var prefix := "data:" + m + ";base64";
    assert "data:" + m + ";base64," + b == prefix + [','] + b;
    assert ',' !in prefix by {
      forall k | 0 <= k < |prefix| ensures prefix[k] != ',' {
        if 5 <= k < 5 + |m| { assert prefix[k] == m[k - 5]; assert m[k - 5] in m; }
      }
    }
    DecodeAtComma(prefix, b);
    MimeOfDataPrefix(m);
  }

  /**
   * What the Encoder promises for a well-formed file: when the reader writes
   * the file's declared image type into the data URL, the media type returned
   * is the declared one and the payload is the reader's.
   */
  lemma DeclaredTypeRoundTrip(declaredType: string, b: string)
    requires StartsWith(declaredType, "image/")
    requires ';' !in declaredType && ',' !in declaredType
    requires forall k :: 0 <= k < |declaredType| ==> !IsLineTerminator(declaredType[k])
    requires ',' !in b
    ensures FileToBase64(declaredType, Loaded("data:" + declaredType + ";base64," + b)).result
      == Success(Base64Image(b, declaredType))
  {
    RoundTrip(declaredType, b);
  }

  /**
   * A line terminator between `:` and `;` defeats `.`, so the round trip needs
   * its line-terminator hypothesis: here no media type is found at all.
   */
  lemma LineTerminatorDefeatsMatch()
    ensures DecodeDataUrl("data:\n;base64,QQ==") == Failure(UnknownMimeType)
  {
    var prefix, payload := "data:\n;base64", "QQ==";
    LineTerminatorPrefix(prefix);
    assert ',' !in payload by {
      assert forall k :: 0 <= k < |payload| ==> payload[k] != ',';
    }
    assert "data:\n;base64,QQ==" == prefix + [','] + payload;
    DecodeAtComma(prefix, payload);
  }

  lemma LineTerminatorPrefix(prefix: string)
    requires prefix == "data:\n;base64"
    ensures ',' !in prefix && MimeMatch(prefix).None?
  {
    assert forall k :: 0 <= k < |prefix| ==> prefix[k] != ',';
    forall i: nat, j: nat | CaptureAt(prefix, i, j) ensures false {
      assert forall k :: 0 <= k < |prefix| && k != 4 ==> prefix[k] != ':';
      assert IsLineTerminator(prefix[5]);
    }
  }
}
