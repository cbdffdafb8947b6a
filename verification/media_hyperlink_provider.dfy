/**
 The media hyperlink provider: it recognises permalinks that point at uploaded
 media and turns a media record into a hyperlink that opens it in a new tab.
 */
module MediaHyperlinkProvider {
  import opened Dom

  /** A permalink; only its `targetKey`, which may be missing, is read. */
  datatype Permalink = Permalink(targetKey: Option<string>)

  /** A media record; only the two fields the provider copies are kept. */
  datatype Media = Media(filename: string, permalinkKey: string)

  /** The four hyperlink fields the provider sets. */
  datatype Hyperlink = Hyperlink(title: string, target: string, permalinkKey: string, hyperlinkType: string)

  const UploadsPrefix := "uploads/"

  /** `String.prototype.startsWith`. */
  predicate StartsWith(s: string, prefix: string)
  {
    |prefix| <= |s| && s[..|prefix|] == prefix
  }

  /** `canHandleHyperlink`. A missing or empty key is falsy and short-circuits
      the test; otherwise the key must start with "uploads/". */
  function CanHandleHyperlink(p: Permalink): (r: bool)
    ensures p.targetKey == None || p.targetKey == Some("") ==> !r
    ensures r ==> p.targetKey.Some? && |p.targetKey.value| >= |UploadsPrefix|
  {
    match p.targetKey
    case None => false
    case Some(key) => key != "" && StartsWith(key, UploadsPrefix)
  }

  /** Every key under "uploads/" is handled, "uploads/" itself included. */
  lemma HandlesEveryUpload(rest: string)
    ensures CanHandleHyperlink(Permalink(Some(UploadsPrefix + rest)))
  {
    assert (UploadsPrefix + rest)[..|UploadsPrefix|] == UploadsPrefix;
  }

  /** Only keys under "uploads/" are handled. */
  lemma HandledKeysAreUploads(p: Permalink)
    requires CanHandleHyperlink(p)
    ensures p.targetKey.Some?
    ensures p.targetKey.value == UploadsPrefix + p.targetKey.value[|UploadsPrefix|..]
  {
    var key := p.targetKey.value;
    assert key == key[..|UploadsPrefix|] + key[|UploadsPrefix|..];
  }

  /** Keys that differ from the prefix anywhere in its first eight characters
      are refused: "uploads" without the slash, and "pages/x". */
  lemma RefusesOtherKeys()
    ensures !CanHandleHyperlink(Permalink(Some("uploads")))
    ensures !CanHandleHyperlink(Permalink(Some("pages/x")))
    ensures !CanHandleHyperlink(Permalink(Some("Uploads/a")))
    ensures CanHandleHyperlink(Permalink(Some("uploads/")))
  {
    HandlesEveryUpload("");
    assert UploadsPrefix + "" == "uploads/";
    assert "Uploads/a"[..8] != UploadsPrefix by {
      assert "Uploads/a"[0] != UploadsPrefix[0];
    }
  }

  /** `getHyperlinkFromResource`: title and permalink key come from the media
      record; the link always opens in a new tab and has type "media". */
  function GetHyperlinkFromResource(m: Media): (h: Hyperlink)
    ensures h.title == m.filename && h.permalinkKey == m.permalinkKey
    ensures h.target == "_blank" && h.hyperlinkType == "media"
  {
    Hyperlink(m.filename, "_blank", m.permalinkKey, "media")
  }

  /** The hyperlink keeps both fields it copies: two media records give the
      same hyperlink exactly when their `filename` and `permalinkKey` agree. */
  lemma HyperlinkIdentifiesMedia(m1: Media, m2: Media)
    ensures GetHyperlinkFromResource(m1) == GetHyperlinkFromResource(m2) <==>
      m1.filename == m2.filename && m1.permalinkKey == m2.permalinkKey
  {
  }
}
