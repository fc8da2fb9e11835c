/**
 * Content-type parsing and classification (src/utils/mimeTypeUtils.ts): a
 * header value is split on `;`, its first piece is the MIME type and a
 * `charset=` parameter gives the charset; the classifications are exact,
 * case-sensitive comparisons of the MIME type.
 */
module MimeTypeUtils {
  import opened Wrappers
  import opened JsStrings

  datatype ContentType = ContentType(mimeType: string, charset: Option<string>)

  const CharsetPrefix: string := "charset="

  /** `parts.map(v => v.trim())`. */
  function TrimAll(parts: seq<string>): (r: seq<string>)
    ensures |r| == |parts|
    ensures forall i :: 0 <= i < |parts| ==> r[i] == Trim(parts[i])
    decreases |parts|
  {
    if |parts| == 0 then [] else [Trim(parts[0])] + TrimAll(parts[1..])
  }

  /** The trimmed parameters of a header value: its `;`-pieces after the first. */
  function Parameters(contentType: string): seq<string>
  {
    TrimAll(Split(contentType, ';')[1..])
  }

  /** The text after `charset=` up to the next `=`. */
  function CharsetValue(parameter: string): string
    requires StartsWith(parameter, CharsetPrefix)
  {
    var rest := parameter[|CharsetPrefix|..];
    rest[..FirstIndexOf(rest, '=')]
  }

  /** `k` is the first parameter that starts with `charset=`. */
  ghost predicate IsFirstCharsetParameter(parameters: seq<string>, k: int)
  {
    && 0 <= k < |parameters|
    && StartsWith(parameters[k], CharsetPrefix)
    && forall j :: 0 <= j < k ==> !StartsWith(parameters[j], CharsetPrefix)
  }

  /** `p.split('=')[1]` for a parameter `p` that starts with `charset=`. */
  lemma CharsetSplit(p: string)
    requires StartsWith(p, CharsetPrefix)
    ensures |Split(p, '=')| >= 2 && Split(p, '=')[1] == CharsetValue(p)
  {
    var rest := p[|CharsetPrefix|..];
    assert p == "charset" + ['='] + rest;
    SplitAfterFirstSeparator("charset", rest, '=');
    SplitHead(rest, '=');
  }

  /**
   * `parameters.find(p => p.startsWith('charset='))?.split('=')[1]`: defined
   * exactly when some parameter starts with `charset=`, and then the value of
   * the first such parameter.
   */
  function FindCharset(parameters: seq<string>): (r: Option<string>)
    ensures r.Some? <==> exists k | 0 <= k < |parameters| :: StartsWith(parameters[k], CharsetPrefix)
    ensures r.Some? ==> exists k | 0 <= k < |parameters| ::
                          IsFirstCharsetParameter(parameters, k) && r.value == CharsetValue(parameters[k])
    decreases |parameters|
  {
    if |parameters| == 0 then None
    else if StartsWith(parameters[0], CharsetPrefix) then
      CharsetSplit(parameters[0]);
      assert IsFirstCharsetParameter(parameters, 0);
      Some(Split(parameters[0], '=')[1])
    else
      var r := FindCharset(parameters[1..]);
      assert forall k :: 0 < k < |parameters| ==> parameters[k] == parameters[1..][k - 1];
      assert r.Some? ==> exists k | 0 <= k < |parameters| ::
                           IsFirstCharsetParameter(parameters, k) && r.value == CharsetValue(parameters[k]) by {
        if r.Some? {
          var k :| 0 <= k < |parameters[1..]| && IsFirstCharsetParameter(parameters[1..], k)
                   && r.value == CharsetValue(parameters[1..][k]);
          assert IsFirstCharsetParameter(parameters, k + 1);
        }
      }
      r
  }

  /**
   * `parseMimeType`: the MIME type is the trimmed text before the first `;`
   * (the whole trimmed value when there is none); the charset comes from the
   * first trimmed parameter starting with `charset=`, and is undefined when no
   * parameter does.
   */
  function ParseMimeType(contentType: string): (ct: ContentType)
    ensures ct.mimeType == Trim(contentType[..FirstIndexOf(contentType, ';')])
    ensures ';' !in contentType ==> ct.mimeType == Trim(contentType)
    ensures var ps := Parameters(contentType);
            ct.charset.Some? <==> exists k | 0 <= k < |ps| :: StartsWith(ps[k], CharsetPrefix)
    ensures var ps := Parameters(contentType);
            ct.charset.Some? ==> exists k | 0 <= k < |ps| ::
                                   IsFirstCharsetParameter(ps, k) && ct.charset.value == CharsetValue(ps[k])
  {
    var parts := Split(contentType, ';');
    SplitHead(contentType, ';');
    assert ';' !in contentType ==> FirstIndexOf(contentType, ';') == |contentType|;
    assert contentType[..|contentType|] == contentType;
    var charset := FindCharset(Parameters(contentType));
    ContentType(Trim(parts[0]), charset)
  }

  predicate IsMimeTypeJson(contentType: Option<ContentType>)
  {
    contentType.Some? && (contentType.value.mimeType == "application/json" || Includes(contentType.value.mimeType, "+json"))
  }

  predicate IsMimeTypeJavascript(contentType: Option<ContentType>)
  {
    contentType.Some? && contentType.value.mimeType == "application/javascript"
  }

  predicate IsMimeTypeXml(contentType: Option<ContentType>)
  {
    && contentType.Some?
    && (|| contentType.value.mimeType == "application/xml"
        || contentType.value.mimeType == "text/xml"
        || Includes(contentType.value.mimeType, "+xml"))
  }

  predicate IsMimeTypeHtml(contentType: Option<ContentType>)
  {
    contentType.Some? && contentType.value.mimeType == "text/html"
  }

  predicate IsMimeTypeCss(contentType: Option<ContentType>)
  {
    contentType.Some? && contentType.value.mimeType == "text/css"
  }

  predicate IsMimeTypeMultiPartFormData(contentType: Option<ContentType>)
  {
    contentType.Some? && contentType.value.mimeType == "multipart/form-data"
  }

  predicate IsMimeTypeNewlineDelimitedJson(contentType: Option<ContentType>)
  {
    contentType.Some? && contentType.value.mimeType == "application/x-ndjson"
  }

  predicate IsMimeTypeFormUrlEncoded(contentType: Option<ContentType>)
  {
    contentType.Some? && contentType.value.mimeType == "application/x-www-form-urlencoded"
  }

  /** A text without `+` contains no `+`-suffix such as `+json`. */
  lemma NoPlusNoSuffix(s: string, suffix: string)
    requires '+' !in s
    requires |suffix| > 0 && suffix[0] == '+'
    ensures !Includes(s, suffix)
  {
    forall i | 0 <= i <= |s| ensures !OccursAt(s, suffix, i) {
      if i + |suffix| <= |s| {
        assert s[i..i + |suffix|][0] == s[i];
      }
    }
  }

  /**
   * Classifying a parsed header looks only at the trimmed text before the
   * first `;`, and compares it without changing its case.
   */
  lemma ClassifyParsedHeader(header: string)
    ensures var m := Trim(header[..FirstIndexOf(header, ';')]);
            var ct := Some(ParseMimeType(header));
            && (IsMimeTypeJson(ct) <==> m == "application/json" || Includes(m, "+json"))
            && (IsMimeTypeXml(ct) <==> m == "application/xml" || m == "text/xml" || Includes(m, "+xml"))
            && (IsMimeTypeJavascript(ct) <==> m == "application/javascript")
            && (IsMimeTypeHtml(ct) <==> m == "text/html")
            && (IsMimeTypeCss(ct) <==> m == "text/css")
            && (IsMimeTypeMultiPartFormData(ct) <==> m == "multipart/form-data")
            && (IsMimeTypeNewlineDelimitedJson(ct) <==> m == "application/x-ndjson")
            && (IsMimeTypeFormUrlEncoded(ct) <==> m == "application/x-www-form-urlencoded")
  {
  }

  /** An undefined content type is never classified. */
  lemma UndefinedIsUnclassified()
    ensures var none: Option<ContentType> := None;
            && !IsMimeTypeJson(none) && !IsMimeTypeXml(none) && !IsMimeTypeJavascript(none)
            && !IsMimeTypeHtml(none) && !IsMimeTypeCss(none) && !IsMimeTypeMultiPartFormData(none)
            && !IsMimeTypeNewlineDelimitedJson(none) && !IsMimeTypeFormUrlEncoded(none)
  {
  }

  /** How many of the literal classifications hold. */
  function LiteralMatches(contentType: Option<ContentType>): nat
  {
    (if IsMimeTypeJavascript(contentType) then 1 else 0)
    + (if IsMimeTypeHtml(contentType) then 1 else 0)
    + (if IsMimeTypeCss(contentType) then 1 else 0)
    + (if IsMimeTypeMultiPartFormData(contentType) then 1 else 0)
    + (if IsMimeTypeNewlineDelimitedJson(contentType) then 1 else 0)
    + (if IsMimeTypeFormUrlEncoded(contentType) then 1 else 0)
  }

  /**
   * The literal classifications never overlap, and none of their literals is
   * classified as JSON or XML; `application/x-ndjson` in particular is not JSON.
   */
  lemma LiteralClassificationsAreExclusive(contentType: Option<ContentType>)
    ensures LiteralMatches(contentType) <= 1
    ensures LiteralMatches(contentType) == 1 ==> !IsMimeTypeJson(contentType) && !IsMimeTypeXml(contentType)
  {
    if contentType.Some? {
      var m := contentType.value.mimeType;
      if m == "application/javascript" || m == "text/html" || m == "text/css" || m == "multipart/form-data"
         || m == "application/x-ndjson" || m == "application/x-www-form-urlencoded" {
        LiteralIsUnique(m);
        NeitherJsonNorXml(contentType);
      }
    }
  }

  /** Each literal of the literal classifications matches only itself, and is not a JSON or XML literal. */
  lemma LiteralIsUnique(m: string)
    requires || m == "application/javascript" || m == "text/html" || m == "text/css" || m == "multipart/form-data"
             || m == "application/x-ndjson" || m == "application/x-www-form-urlencoded"
    ensures (if m == "application/javascript" then 1 else 0) + (if m == "text/html" then 1 else 0)
            + (if m == "text/css" then 1 else 0) + (if m == "multipart/form-data" then 1 else 0)
            + (if m == "application/x-ndjson" then 1 else 0) + (if m == "application/x-www-form-urlencoded" then 1 else 0) == 1
    ensures '+' !in m && m !in {"application/json", "application/xml", "text/xml"}
  {
  }

  /** A type without `+` that is none of the JSON and XML literals is neither JSON nor XML. */
  lemma NeitherJsonNorXml(contentType: Option<ContentType>)
    requires contentType.Some? && '+' !in contentType.value.mimeType
    requires contentType.value.mimeType !in {"application/json", "application/xml", "text/xml"}
    ensures !IsMimeTypeJson(contentType) && !IsMimeTypeXml(contentType)
  {
    NoPlusNoSuffix(contentType.value.mimeType, "+json");
    NoPlusNoSuffix(contentType.value.mimeType, "+xml");
  }

  /**
   * A type is both JSON and XML only through the `+json` and `+xml` suffixes:
   * the exact literals of one are never the other.
   */
  lemma JsonAndXmlOverlapOnlyBySuffix(contentType: Option<ContentType>)
    ensures IsMimeTypeJson(contentType) && IsMimeTypeXml(contentType) ==>
              Includes(contentType.value.mimeType, "+json") && Includes(contentType.value.mimeType, "+xml")
  {
    if contentType.Some? {
      var m := contentType.value.mimeType;
      if '+' !in m {
        NoPlusNoSuffix(m, "+json");
        NoPlusNoSuffix(m, "+xml");
      }
    }
  }

  /**
   * Every classification is an exact comparison with lower-case literals:
   * a type without `+` is JSON or XML only when it is one of their literals
   * verbatim, and each other classification holds only for its own literal,
   * so any other spelling of a literal (upper-case letters included) is
   * rejected; nothing lower-cases the input.
   */
  lemma ComparisonsAreCaseSensitive(mimeType: string, charset: Option<string>)
    requires '+' !in mimeType
    ensures var ct := Some(ContentType(mimeType, charset));
            && (IsMimeTypeJson(ct) <==> mimeType == "application/json")
            && (IsMimeTypeXml(ct) <==> mimeType == "application/xml" || mimeType == "text/xml")
            && (IsMimeTypeJavascript(ct) <==> mimeType == "application/javascript")
            && (IsMimeTypeHtml(ct) <==> mimeType == "text/html")
            && (IsMimeTypeCss(ct) <==> mimeType == "text/css")
            && (IsMimeTypeMultiPartFormData(ct) <==> mimeType == "multipart/form-data")
            && (IsMimeTypeNewlineDelimitedJson(ct) <==> mimeType == "application/x-ndjson")
            && (IsMimeTypeFormUrlEncoded(ct) <==> mimeType == "application/x-www-form-urlencoded")
  {
    NoPlusNoSuffix(mimeType, "+json");
    NoPlusNoSuffix(mimeType, "+xml");
  }
}
