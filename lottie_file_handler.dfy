/**
 * Loading and content sniffing of Lottie files (`LottieFileHandler`,
 * `LottieFileError`). A file is its path extension and the bytes that
 * `Data(contentsOf:)` would read (`None` when reading fails); the outcome of
 * the rasterizer's own open-and-validate step is passed in.
 */
module LottieFileHandler {
  import opened Wrappers
  import opened Bytes
  import opened Text
  import opened Utf8
  import opened ThorVG

  datatype LottieFileError = NotALottieFile | InvalidFormat | LoadFailed(underlying: string)

  datatype FileRef = FileRef(pathExtension: string, contents: Option<seq<byte>>)

  const NotALottieFileMessage := "The file is not a valid Lottie animation"
  const InvalidFormatMessage := "Unsupported file format"
  const LoadFailedPrefix := "Failed to load animation: "

  /** `errorDescription`: one fixed message per case; `loadFailed` appends the underlying error's description. */
  function ErrorDescription(e: LottieFileError): (d: string)
    ensures e.LoadFailed? ==>
      |d| >= |LoadFailedPrefix| && d[..|LoadFailedPrefix|] == LoadFailedPrefix && d[|LoadFailedPrefix|..] == e.underlying
  {
    match e
    case NotALottieFile => NotALottieFileMessage
    case InvalidFormat => InvalidFormatMessage
    case LoadFailed(underlying) => LoadFailedPrefix + underlying
  }

  /** Different errors are described differently, so the description identifies the error. */
  lemma ErrorDescriptionInjective(e1: LottieFileError, e2: LottieFileError)
    requires ErrorDescription(e1) == ErrorDescription(e2)
    ensures e1 == e2
  {
    var d := ErrorDescription(e1);
    if e1.LoadFailed? || e2.LoadFailed? {
      assert d[0] == 'F';
    }
  }

  predicate IsSupportedExtension(ext: string)
  {
    ext == "json" || ext == "lot"
  }

  /**
   * `loadLottie(from:)`: only the extensions `json` and `lot` (in any case) are
   * opened; every failure of the rasterizer's open becomes `notALottieFile`.
   */
  function LoadLottie(file: FileRef, openResult: Option<Lottie>): (r: Result<Lottie, LottieFileError>)
    ensures r.Failure? ==> !r.error.LoadFailed?
    ensures r == Failure(InvalidFormat) <==> !IsSupportedExtension(Lowercased(file.pathExtension))
    ensures r == Failure(NotALottieFile) <==> IsSupportedExtension(Lowercased(file.pathExtension)) && openResult.None?
    ensures r.Success? ==> openResult == Some(r.value)
  {
    var ext := Lowercased(file.pathExtension);
    if ext == "json" || ext == "lot" then
      match openResult
      case Some(lottie) => Success(lottie)
      case None => Failure(NotALottieFile)
    else
      Failure(InvalidFormat)
  }

  /** The number of leading bytes the content heuristic inspects. */
  const SniffLength: nat := 2048

  /** Keys found near the start of a Lottie document, each with its quotes and colon. */
  const Indicators: seq<string> := ["\"v\":", "\"fr\":", "\"ip\":", "\"op\":", "\"w\":", "\"h\":", "\"layers\""]

  /** At least this many distinct indicators make a `json` file likely Lottie. */
  const RequiredMatches: nat := 3

  /** `data.prefix(2048)`. */
  function SniffedPrefix(data: seq<byte>): (p: seq<byte>)
    ensures |p| == if |data| < SniffLength then |data| else SniffLength
    ensures p <= data
    ensures |data| <= SniffLength ==> p == data
  {
    if |data| <= SniffLength then data else data[..SniffLength]
  }

  /** `tokens.filter { content.contains($0) }`. */
  function MatchingTokens(tokens: seq<string>, content: string): (r: seq<string>)
    ensures |r| <= |tokens|
    ensures forall t :: t in r <==> t in tokens && Contains(content, t)
  {
    if tokens == [] then []
    else if Contains(content, tokens[0]) then [tokens[0]] + MatchingTokens(tokens[1..], content)
    else MatchingTokens(tokens[1..], content)
  }

  /** `isLikelyLottieFile(at:)`. */
  function IsLikelyLottieFile(file: FileRef): (likely: bool)
    ensures likely ==> IsSupportedExtension(Lowercased(file.pathExtension))
    ensures likely && Lowercased(file.pathExtension) == "json" ==>
      file.contents.Some? && Decode(SniffedPrefix(file.contents.value)).Some?
  {
    var ext := Lowercased(file.pathExtension);
    if ext == "lot" then
      true
    else if ext == "json" then
      match file.contents
      case None => false
      case Some(data) =>
        match Decode(SniffedPrefix(data))
        case None => false
        case Some(content) => |MatchingTokens(Indicators, content)| >= RequiredMatches
    else
      false
  }

  /** The indicators that occur in `content`, as a set. */
  function MatchedIndicators(content: string): set<string>
  {
    set t | t in Indicators && Contains(content, t)
  }

  predicate NoDuplicates<T(==)>(s: seq<T>)
  {
    forall i, j :: 0 <= i < j < |s| ==> s[i] != s[j]
  }

  lemma {:induction false} DistinctCardinality<T>(s: seq<T>)
    requires NoDuplicates(s)
    ensures |set x | x in s| == |s|
  {
    if s != [] {
      DistinctCardinality(s[1..]);
      assert (set x | x in s) == {s[0]} + (set x | x in s[1..]);
      assert s[0] !in s[1..];
    }
  }

  lemma {:induction false} MatchingTokensDistinct(tokens: seq<string>, content: string)
    requires NoDuplicates(tokens)
    ensures NoDuplicates(MatchingTokens(tokens, content))
  {
    if tokens != [] {
      MatchingTokensDistinct(tokens[1..], content);
      assert tokens[0] !in tokens[1..];
    }
  }

  /**
   * The filtered count is the number of DISTINCT indicators present: a key that
   * occurs several times counts once.
   */
  lemma MatchCountIsDistinct(content: string)
    ensures |MatchingTokens(Indicators, content)| == |MatchedIndicators(content)|
  {
    assert NoDuplicates(Indicators);
    MatchingTokensDistinct(Indicators, content);
    var r := MatchingTokens(Indicators, content);
    DistinctCardinality(r);
    assert (set x | x in r) == MatchedIndicators(content);
  }

  /** A `lot` extension is accepted without looking at the file. */
  lemma LotIsLikely(file: FileRef)
    requires Lowercased(file.pathExtension) == "lot"
    ensures IsLikelyLottieFile(file)
  {
  }

  /** Every extension other than `lot` and `json` is rejected. */
  lemma OtherExtensionsUnlikely(file: FileRef)
    requires !IsSupportedExtension(Lowercased(file.pathExtension))
    ensures !IsLikelyLottieFile(file)
  {
  }

  /**
   * The verdict for a `json` file: false when it cannot be read or its first
   * 2048 bytes are not UTF-8, otherwise whether at least three distinct
   * indicators occur in the decoded text.
   */
  lemma JsonVerdict(file: FileRef)
    requires Lowercased(file.pathExtension) == "json"
    ensures file.contents.None? ==> !IsLikelyLottieFile(file)
    ensures file.contents.Some? && Decode(SniffedPrefix(file.contents.value)).None? ==> !IsLikelyLottieFile(file)
    ensures file.contents.Some? && Decode(SniffedPrefix(file.contents.value)).Some? ==>
      (IsLikelyLottieFile(file) <==> |MatchedIndicators(Decode(SniffedPrefix(file.contents.value)).value)| >= 3)
  {
    if file.contents.Some? && Decode(SniffedPrefix(file.contents.value)).Some? {
      MatchCountIsDistinct(Decode(SniffedPrefix(file.contents.value)).value);
    }
  }

  /** The indicators whose bytes occur in `prefix`, searched without decoding. */
  function IndicatorsInBytes(prefix: seq<byte>): set<string>
  {
    set t | t in Indicators && Contains(prefix, Encode(t))
  }

  /**
   * The same verdict read off the raw bytes: for a decodable prefix, searching the
   * text and searching its bytes find the same indicators, since each indicator is
   * 7-bit and such bytes never occur inside a multi-byte character.
   */
  lemma JsonVerdictOnBytes(file: FileRef)
    requires Lowercased(file.pathExtension) == "json"
    requires file.contents.Some? && Decode(SniffedPrefix(file.contents.value)).Some?
    ensures IsLikelyLottieFile(file) <==> |IndicatorsInBytes(SniffedPrefix(file.contents.value))| >= 3
  {
    var prefix := SniffedPrefix(file.contents.value);
    JsonVerdict(file);
    SameIndicators(prefix, Decode(prefix).value);
  }

  lemma IndicatorsAreAscii()
    ensures forall t :: t in Indicators ==> IsAscii(t) && t != []
  {
  }

  lemma SameIndicators(prefix: seq<byte>, content: string)
    requires Decode(prefix) == Some(content)
    ensures MatchedIndicators(content) == IndicatorsInBytes(prefix)
  {
    IndicatorsAreAscii();
    forall t | t in Indicators
      ensures Contains(content, t) <==> Contains(prefix, Encode(t))
    {
      AsciiContains(prefix, content, t);
    }
  }

  /** A prefix that is a decodable part followed by the start of a longer character does not decode. */
  lemma {:induction false} CutSequenceRejected(b: seq<byte>, q: seq<byte>, k: nat)
    requires Decode(b).Some? && 0 < k < SequenceLength(q)
    ensures Decode(b + q[..k]) == None
    decreases |b|
  {
    if b == [] {
      assert b + q[..k] == q[..k];
      assert q[..k][..k] == q[..k];
    } else {
      var n := SequenceLength(b);
      SequenceLengthStable(b, q[..k]);
      assert (b + q[..k])[n..] == b[n..] + q[..k];
      CutSequenceRejected(b[n..], q, k);
    }
  }

  /**
   * A `json` file whose 2048-byte prefix cuts a multi-byte character in two is
   * rejected, whatever the prefix contains before it.
   */
  lemma CutCharacterUnlikely(file: FileRef, i: nat)
    requires Lowercased(file.pathExtension) == "json" && file.contents.Some?
    requires i < SniffLength < |file.contents.value|
    requires Decode(file.contents.value[..i]).Some?
    requires SniffLength < i + SequenceLength(file.contents.value[i..])
    ensures !IsLikelyLottieFile(file)
  {
    var data := file.contents.value;
    var k := SniffLength - i;
    CutSequenceRejected(data[..i], data[i..], k);
    assert data[..i] + data[i..][..k] == SniffedPrefix(data);
  }

  /** A `json` file whose decoded prefix has none of the indicators is rejected. */
  lemma NoIndicatorsUnlikely(file: FileRef, text: string)
    requires Lowercased(file.pathExtension) == "json" && file.contents.Some?
    requires Decode(SniffedPrefix(file.contents.value)) == Some(text)
    requires forall t :: t in Indicators ==> !Contains(text, t)
    ensures !IsLikelyLottieFile(file)
  {
    assert MatchedIndicators(text) == {};
    JsonVerdict(file);
  }

  lemma IndicatorsListed()
    ensures forall t :: t in Indicators ==>
      t == "\"v\":" || t == "\"fr\":" || t == "\"ip\":" || t == "\"op\":" || t == "\"w\":" || t == "\"h\":" || t == "\"layers\""
  {
  }

  /** `{"foo": 1}` has none of the indicators: each has a letter the text lacks. */
  lemma PlainJsonHasNoIndicators()
    ensures forall t :: t in Indicators ==> !Contains("{\"foo\": 1}", t)
  {
    var text := "{\"foo\": 1}";
    forall t | t in Indicators ensures !Contains(text, t) {
      IndicatorsListed();
      if t == "\"v\":" { MissingElement(text, t, 'v'); }
      else if t == "\"fr\":" { MissingElement(text, t, 'r'); }
      else if t == "\"ip\":" { MissingElement(text, t, 'i'); }
      else if t == "\"op\":" { MissingElement(text, t, 'p'); }
      else if t == "\"w\":" { MissingElement(text, t, 'w'); }
      else if t == "\"h\":" { MissingElement(text, t, 'h'); }
      else { MissingElement(text, t, 'l'); }
    }
  }

  /** A `json` file whose first bytes decode to `{"foo": 1}` is rejected. */
  lemma PlainJsonUnlikely(file: FileRef)
    requires Lowercased(file.pathExtension) == "json" && file.contents.Some?
    requires Decode(SniffedPrefix(file.contents.value)) == Some("{\"foo\": 1}")
    ensures !IsLikelyLottieFile(file)
  {
    PlainJsonHasNoIndicators();
    NoIndicatorsUnlikely(file, "{\"foo\": 1}");
  }

  const SpacedKeys := "{\"v\" : 5, \"fr\" : 30, \"ip\" : 0}"

  lemma SpacedKeysHaveNoQuoteColon()
    ensures !Contains(SpacedKeys, "\":")
  {
    assert forall i :: 0 <= i < |SpacedKeys| - 1 ==> !(SpacedKeys[i] == '"' && SpacedKeys[i + 1] == ':');
    NoAdjacentPair(SpacedKeys, '"', ':');
  }

  /** Every indicator but `"layers"` ends in a quote and a colon, which the text never has side by side. */
  lemma QuoteColonIndicator(t: string)
    requires t in Indicators && t != "\"layers\""
    ensures Contains(t, "\":")
  {
    IndicatorsListed();
    assert OccursAt(t, "\":", |t| - 2);
  }

  /** With a space before each colon, `"v" :`, `"fr" :` and `"ip" :` match none of the indicators. */
  lemma SpacedKeysHaveNoIndicators()
    ensures forall t :: t in Indicators ==> !Contains(SpacedKeys, t)
  {
    forall t | t in Indicators ensures !Contains(SpacedKeys, t) {
      if t == "\"layers\"" {
        MissingElement(SpacedKeys, t, 'l');
      } else if Contains(SpacedKeys, t) {
        QuoteColonIndicator(t);
        ContainsTransitive(SpacedKeys, t, "\":");
        SpacedKeysHaveNoQuoteColon();
      }
    }
  }

  /** Keys are matched exactly: a `json` file whose first bytes decode to the spaced keys is rejected. */
  lemma SpacedKeysUnlikely(file: FileRef)
    requires Lowercased(file.pathExtension) == "json" && file.contents.Some?
    requires Decode(SniffedPrefix(file.contents.value)) == Some(SpacedKeys)
    ensures !IsLikelyLottieFile(file)
  {
    SpacedKeysHaveNoIndicators();
    NoIndicatorsUnlikely(file, SpacedKeys);
  }
}
