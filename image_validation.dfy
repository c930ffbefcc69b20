/** The upload body schema of recipe-api/src/validation/image.js: `image` is
    required and must be a whole base64 `data:` URI (section 3 of RFC 2397) of
    a PNG, JPEG, GIF or SVG image, its payload drawn from the base64 alphabet
    of section 4 of RFC 4648 (padding included) and nothing else. */
module ImageValidation {
  import opened Wrappers
  import opened Text
  import RecipeValidation

  /** The subtypes of `(png|jpe?g|gif|svg\+xml)`. */
  const UploadSubtypes: seq<string> := ["png", "jpg", "jpeg", "gif", "svg+xml"]

  /** `[A-Za-z0-9+/=]` */
  predicate IsBase64Char(c: char) {
    ('A' <= c <= 'Z') || ('a' <= c <= 'z') || ('0' <= c <= '9') || c == '+' || c == '/' || c == '='
  }

  predicate AllBase64(s: string) {
    forall i :: 0 <= i < |s| ==> IsBase64Char(s[i])
  }

  /** `data:image/<subtype>;base64,` */
  function DataUriPrefix(subtype: string): string {
    "data:image/" + subtype + ";base64,"
  }

  /** `s` is the data URI of `subtype` with a non-empty base64 payload that
      runs to the end of the string. */
  predicate MatchesWith(s: string, subtype: string) {
    && StartsWith(s, DataUriPrefix(subtype))
    && s[|DataUriPrefix(subtype)|..] != ""
    && AllBase64(s[|DataUriPrefix(subtype)|..])
  }

  /** The pattern on line 7. */
  predicate UploadAccepted(s: string) {
    exists k :: 0 <= k < |UploadSubtypes| && MatchesWith(s, UploadSubtypes[k])
  }

  /** `uploadImageSchema`: a missing `image` fails `required`. */
  predicate UploadValid(image: Option<string>) {
    image.Some? && UploadAccepted(image.value)
  }

  /** The accepted strings are exactly the prefix of one of the five subtypes
      followed by a non-empty base64 payload. */
  lemma UploadAcceptedIff(subtype: string, payload: string)
    requires subtype in UploadSubtypes
    ensures UploadAccepted(DataUriPrefix(subtype) + payload) <==> payload != "" && AllBase64(payload)
  {
    var s := DataUriPrefix(subtype) + payload;
    assert s[..|DataUriPrefix(subtype)|] == DataUriPrefix(subtype);
    assert s[|DataUriPrefix(subtype)|..] == payload;
    if UploadAccepted(s) {
      var k :| 0 <= k < |UploadSubtypes| && MatchesWith(s, UploadSubtypes[k]);
      SamePrefixSameSubtype(s, UploadSubtypes[k], subtype);
    }
  }

  /** Two subtypes whose prefixes both begin `s` are the same: each ends at
      the first `;` after `data:image/`. */
  lemma SamePrefixSameSubtype(s: string, a: string, b: string)
    requires a in UploadSubtypes && b in UploadSubtypes
    requires StartsWith(s, DataUriPrefix(a)) && StartsWith(s, DataUriPrefix(b))
    ensures a == b
  {
    PrefixFixesSubtype(s, a);
    PrefixFixesSubtype(s, b);
  }

  lemma PrefixFixesSubtype(s: string, a: string)
    requires a in UploadSubtypes && StartsWith(s, DataUriPrefix(a))
    ensures IndexOf(s[11..], ';') == Some(|a|) && s[11..][..|a|] == a
  {
    var t := s[11..];
    var p := DataUriPrefix(a);
    assert s[..|p|] == p;
    assert p[11..11 + |a|] == a;
    assert t[..|a|] == s[11..11 + |a|] == p[11..11 + |a|];
    assert t[|a|] == ';';
    assert ';' !in a;
    IndexOfFirst(t, ';', |a|);
  }

  /** An SVG upload passes this schema, while the recipe body schema of
      recipe-api/src/validation/recipe.js refuses the same string as `image`. */
  lemma SvgAcceptedOnlyHere(payload: string)
    requires payload != "" && AllBase64(payload)
    ensures UploadAccepted(DataUriPrefix("svg+xml") + payload)
    ensures !RecipeValidation.ImagePrefixOk(DataUriPrefix("svg+xml") + payload)
  {
    UploadAcceptedIff("svg+xml", payload);
    RecipeValidation.SvgPrefixRejected(payload);
    assert DataUriPrefix("svg+xml") + payload == "data:image/svg+xml;base64," + payload;
  }
}
