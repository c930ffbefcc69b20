/** `toBuffer` of recipe-api/src/utils/imageBase64.js: the payload of a base64
    `data:` URI, or the whole string when it is not one, checked against the
    base64 alphabet of section 4 of RFC 4648 (trailing white space allowed)
    before it is decoded. Decoding itself is a parameter. */
module ImageBase64 {
  import opened Wrappers
  import opened Text
  import opened ImageValidation

  const Marker := ";base64,"
  const InvalidPayload := "Invalid Base64 payload"

  /** Group 2 of `/^data:(.+);base64,(.*)$/`. Neither group matches a line
      terminator, and the greedy `.+` makes the payload start after the last
      `;base64,` that leaves group 1 non-empty. */
  function DataUriPayload(s: string): (r: Option<string>)
    ensures r.Some? ==> StartsWith(s, "data:") && SingleLine(r.value)
    ensures r.Some? ==> exists j :: 6 <= j && OccursAt(s, Marker, j) && r.value == s[j + |Marker|..]
  {
    if StartsWith(s, "data:") && SingleLine(s[5..]) then
      match LastIndexOfSub(s, Marker, 6, |s| - |Marker|)
      case Some(j) =>
        assert s[j + |Marker|..] == s[5..][j + |Marker| - 5..];
        Some(s[j + |Marker|..])
      case None => None
    else None
  }

  /** `match ? match[2] : image`. */
  function Payload(image: string): string {
    DataUriPayload(image).GetOr(image)
  }

  /** The test `/^[A-Za-z0-9+/=]+\s*$/`, stated through `trimEnd`. */
  predicate PayloadOk(p: string) {
    TrimEnd(p) != "" && AllBase64(TrimEnd(p))
  }

  /** `PayloadOk` is the pattern: one or more alphabet characters, then only
      white space. */
  lemma PayloadOkIff(p: string, k: nat)
    requires k <= |p|
    ensures (1 <= k && AllBase64(p[..k]) && AllSpace(p[k..])) ==> PayloadOk(p) && TrimEnd(p) == p[..k]
    ensures PayloadOk(p) ==> AllBase64(p[..|TrimEnd(p)|]) && AllSpace(p[|TrimEnd(p)|..]) && |TrimEnd(p)| >= 1
  {
    if 1 <= k && AllBase64(p[..k]) && AllSpace(p[k..]) {
      assert IsBase64Char(p[..k][k - 1]);
      assert p == p[..k] + p[k..];
      TrimEndOfPadded(p[..k], p[k..]);
    }
  }

  /** `toBuffer`: the decoded payload, or the error it throws. */
  function ToBuffer(image: string, decode: string -> seq<int>): (r: Result<seq<int>>)
    ensures r.Ok? <==> PayloadOk(Payload(image))
    ensures r.Ok? ==> r.value == decode(Payload(image))
    ensures r.Err? ==> r.error == InvalidPayload
  {
    var payload := Payload(image);
    if PayloadOk(payload) then Ok(decode(payload)) else Err(InvalidPayload)
  }

  /** For a URI whose payload holds no `;`, the payload is what follows the
      marker. */
  lemma PayloadAfterMarker(mediaType: string, p: string)
    requires mediaType != "" && SingleLine(mediaType) && SingleLine(p) && ';' !in p
    ensures DataUriPayload("data:" + mediaType + Marker + p) == Some(p)
  {
    var s := "data:" + mediaType + Marker + p;
    var j0 := 5 + |mediaType|;
    assert s[..5] == "data:";
    assert s[5..] == mediaType + Marker + p;
    assert SingleLine(Marker);
    SingleLineConcat(mediaType, Marker);
    SingleLineConcat(mediaType + Marker, p);
    assert s[j0..j0 + |Marker|] == Marker;
    assert s[j0 + |Marker|..] == p;
    forall j | j0 < j <= |s| - |Marker|
      ensures !OccursAt(s, Marker, j)
    {
      if j < j0 + |Marker| {
        assert s[j] == Marker[j - j0];
      } else {
        assert s[j] == p[j - j0 - |Marker|];
      }
      assert s[j..j + |Marker|][0] == s[j] != ';' == Marker[0];
    }
    var r := LastIndexOfSub(s, Marker, 6, |s| - |Marker|);
    assert OccursAt(s, Marker, j0);
    assert r.Some? && r.value == j0;
  }

  /** Every string the upload schema accepts passes `toBuffer`, which decodes
      exactly the payload the schema checked. */
  lemma AcceptedUploadDecodes(subtype: string, payload: string, decode: string -> seq<int>)
    requires subtype in UploadSubtypes && payload != "" && AllBase64(payload)
    ensures UploadAccepted(DataUriPrefix(subtype) + payload)
    ensures ToBuffer(DataUriPrefix(subtype) + payload, decode) == Ok(decode(payload))
  {
    UploadAcceptedIff(subtype, payload);
    var mediaType := "image/" + subtype;
    assert SingleLine(mediaType);
    Base64IsPlain(payload);
    PayloadAfterMarker(mediaType, payload);
    assert DataUriPrefix(subtype) + payload == "data:" + mediaType + Marker + payload by {
      assert "data:image/" == "data:" + "image/";
      AppendAssoc("data:", "image/", subtype);
    }
    PayloadOkIff(payload, |payload|);
    assert payload[..|payload|] == payload;
  }

  /** Base64 text holds no line terminator, no `;` and no white space. */
  lemma Base64IsPlain(p: string)
    requires AllBase64(p)
    ensures SingleLine(p) && ';' !in p && NoSpace(p)
  {
    forall i | 0 <= i < |p| ensures !IsLineTerminator(p[i]) && p[i] != ';' && !IsSpace(p[i]) {
      assert IsBase64Char(p[i]);
    }
  }

  lemma AppendAssoc(a: string, b: string, c: string)
    ensures a + b + c == a + (b + c)
  {
  }
}
