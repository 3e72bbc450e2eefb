/**
 * The two ways the portal gets the base64 payload out of an image data URL:
 * the relay server's `image.replace(/^data:image\/\w+;base64,/, "")` and the
 * scanner pages' `image.split(',')[1]`.
 */
module DataUri {
  import opened Optional
  import opened JsString

  const ImagePrefix: string := "data:image/"
  const Base64Marker: string := ";base64,"

  /** The regular-expression class `\w`. */
  predicate IsWordChar(c: char) {
    ('a' <= c <= 'z') || ('A' <= c <= 'Z') || ('0' <= c <= '9') || c == '_'
  }

  /** A media subtype the pattern `\w+` accepts. */
  predicate IsSubtype(w: string) {
    |w| >= 1 && forall i :: 0 <= i < |w| ==> IsWordChar(w[i])
  }

  /** The data URL a browser `FileReader.readAsDataURL` produces for an image. */
  function DataUrl(subtype: string, payload: string): string {
    ImagePrefix + subtype + Base64Marker + payload
  }

  /** `h` is exactly a header the pattern matches: `data:image/`, a subtype, `;base64,`. */
  predicate IsHeader(h: string) {
    && |h| > |ImagePrefix| + |Base64Marker|
    && h[..|ImagePrefix|] == ImagePrefix
    && h[|h| - |Base64Marker|..] == Base64Marker
    && IsSubtype(h[|ImagePrefix|..|h| - |Base64Marker|])
  }

  /** Length of the longest run of word characters at the start of `s` (what greedy `\w+` takes). */
  function WordRun(s: string): (n: nat)
    ensures n <= |s|
    ensures forall i :: 0 <= i < n ==> IsWordChar(s[i])
    ensures n == |s| || !IsWordChar(s[n])
  {
    if s != [] && IsWordChar(s[0]) then 1 + WordRun(s[1..]) else 0
  }

  /** The server's prefix strip: drops one leading matched header, otherwise returns the input. */
  function StripDataUriPrefix(s: string): (r: string)
    ensures r == s || (|r| < |s| && r == s[|s| - |r|..] && IsHeader(s[..|s| - |r|]))
  {
    if |s| >= |ImagePrefix| && s[..|ImagePrefix|] == ImagePrefix then
      var rest := s[|ImagePrefix|..];
      var n := WordRun(rest);
      if n >= 1 && |rest| >= n + |Base64Marker| && rest[n..n + |Base64Marker|] == Base64Marker then
        var r := rest[n + |Base64Marker|..];
        assert s[..|s| - |r|][|ImagePrefix|..|s| - |r| - |Base64Marker|] == rest[..n];
        r
      else s
    else s
  }

  /** Whenever a header is present, the strip removes exactly that header. */
  lemma StripHeader(s: string, k: nat)
    requires k <= |s| && IsHeader(s[..k])
    ensures StripDataUriPrefix(s) == s[k..]
  {
    var h := s[..k];
    var p := |ImagePrefix|;
    var m := |Base64Marker|;
    assert s[..p] == h[..p];
    var rest := s[p..];
    var w := h[p..k - m];
    assert rest[..k - m - p] == w;
    assert rest[k - m - p] == ';' by {
      assert rest[k - m - p] == h[k - m] == h[k - m..][0];
    }
    WordRunExact(rest, k - m - p);
    assert rest[k - p - m..k - p] == h[k - m..];
    assert rest[k - p..] == s[k..];
  }

  /** A run of word characters ended by a non-word character is what `\w+` takes. */
  lemma {:induction false} WordRunExact(s: string, n: nat)
    requires n <= |s|
    requires forall i :: 0 <= i < n ==> IsWordChar(s[i])
    requires n < |s| ==> !IsWordChar(s[n])
    ensures WordRun(s) == n
  {
    if n > 0 {
      WordRunExact(s[1..], n - 1);
    }
  }

  /** A data URL loses its header, and only its header. */
  lemma StripDataUrl(subtype: string, payload: string)
    requires IsSubtype(subtype)
    ensures StripDataUriPrefix(DataUrl(subtype, payload)) == payload
  {
    var s := DataUrl(subtype, payload);
    var k := |ImagePrefix| + |subtype| + |Base64Marker|;
    assert s[..k] == ImagePrefix + subtype + Base64Marker;
    assert s[..k][|ImagePrefix|..k - |Base64Marker|] == subtype;
    StripHeader(s, k);
    assert s[k..] == payload;
  }

  /** The strip happens once: a payload that itself looks like a data URL is left as it is. */
  lemma StripOnlyOnce(w1: string, w2: string, payload: string)
    requires IsSubtype(w1) && IsSubtype(w2)
    ensures StripDataUriPrefix(DataUrl(w1, DataUrl(w2, payload))) == DataUrl(w2, payload)
  {
    StripDataUrl(w1, DataUrl(w2, payload));
  }

  /** A prefixed and an unprefixed image produce the same payload after the server strip. */
  lemma StripPrefixedEqualsPlain(subtype: string, payload: string)
    requires IsSubtype(subtype)
    requires StripDataUriPrefix(payload) == payload
    ensures StripDataUriPrefix(DataUrl(subtype, payload)) == StripDataUriPrefix(payload)
  {
    StripDataUrl(subtype, payload);
  }

  /** The scanner pages' `image.split(',')[1]`: the second comma-separated piece, or undefined. */
  function PayloadAfterComma(image: string): (r: Option<string>)
    ensures r.Some? <==> ',' in image
  {
    var parts := Split(image, ',');
    SplitCount(image, ',');
    OccurrencesPositive(image, ',');
    if |parts| >= 2 then Some(parts[1]) else None
  }

  /** A character occurs in a string exactly when its count is positive. */
  lemma {:induction false} OccurrencesPositive(s: string, c: char)
    ensures Occurrences(s, c) > 0 <==> c in s
  {
    if s != [] {
      OccurrencesPositive(s[1..], c);
      assert c in s <==> s[0] == c || c in s[1..];
    }
  }

  /** The header of a data URL, up to its comma, holds no comma. */
  lemma HeaderCommaFree(subtype: string)
    requires IsSubtype(subtype)
    ensures ',' !in ImagePrefix + subtype + ";base64"
  {
    var head := ImagePrefix + subtype + ";base64";
    forall i | 0 <= i < |head| ensures head[i] != ',' {
      if |ImagePrefix| <= i < |ImagePrefix| + |subtype| {
        assert head[i] == subtype[i - |ImagePrefix|];
      }
    }
  }

  /** On a data URL whose payload has no comma (base64 never does), client and server agree. */
  lemma PayloadAfterCommaAgreesWithStrip(subtype: string, payload: string)
    requires IsSubtype(subtype) && ',' !in payload
    ensures PayloadAfterComma(DataUrl(subtype, payload)) == Some(payload)
    ensures PayloadAfterComma(DataUrl(subtype, payload)) == Some(StripDataUriPrefix(DataUrl(subtype, payload)))
  {
    var head := ImagePrefix + subtype + ";base64";
    HeaderCommaFree(subtype);
    assert DataUrl(subtype, payload) == Join([head, payload], ',');
    SplitJoin([head, payload], ',');
    StripDataUrl(subtype, payload);
  }

  /**
   * With a comma inside the payload, the client keeps only the part before
   * it, while the server keeps the whole payload.
   */
  lemma CommaInPayloadDiverges(subtype: string, a: string, b: string)
    requires IsSubtype(subtype) && ',' !in a
    ensures PayloadAfterComma(DataUrl(subtype, a + "," + b)) == Some(a)
    ensures StripDataUriPrefix(DataUrl(subtype, a + "," + b)) == a + "," + b
  {
    var head := ImagePrefix + subtype + ";base64";
    HeaderCommaFree(subtype);
    SplitPiecesFree(b, ',');
    JoinSplit(b, ',');
    var tail := Split(b, ',');
    var parts := [head, a] + tail;
    assert parts[1..] == [a] + tail;
    assert ([a] + tail)[1..] == tail;
    assert Join([a] + tail, ',') == a + [','] + Join(tail, ',');
    assert DataUrl(subtype, a + "," + b) == Join(parts, ',');
    SplitJoin(parts, ',');
    StripDataUrl(subtype, a + "," + b);
  }
}
