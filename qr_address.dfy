/**
 * The address a user is sent to after a successful 2FA enrollment: the
 * scheme of the incoming request, its Host header, and the fixed path under
 * which the QR image is served.
 */
module QrAddress {
  import opened Options

  /** What the enrollment handler knows of its request: TLS or not, and the Host header. */
  datatype Origin = Origin(tlsPresent: bool, host: string)

  /** The route under which the rendered QR image is served. */
  const QrPath: string := "/auth/qr/qr.png"

  /** `GetScheme`: "https" when the request arrived over TLS, "http" otherwise. */
  function Scheme(tlsPresent: bool): (s: string)
    ensures s == "https" <==> tlsPresent
    ensures s == "http" <==> !tlsPresent
  {
    if tlsPresent then "https" else "http"
  }

  /**
   * The URL reported by a successful enrollment. The source hands this string
   * to a formatting routine as its format; here it is the plain concatenation.
   */
  function QrUrl(o: Origin): (url: string)
    ensures |url| >= |QrPath| && url[|url| - |QrPath|..] == QrPath
    ensures (o.tlsPresent ==> url[..8] == "https://") && (!o.tlsPresent ==> url[..7] == "http://")
  {
    Scheme(o.tlsPresent) + "://" + o.host + QrPath
  }

  /**
   * Recovers the origin from a QR URL; the inverse of QrUrl. Any string it
   * accepts is the QrUrl of what it returns.
   */
  function ParseQrUrl(url: string): (r: Option<Origin>)
    ensures r.Some? ==> QrUrl(r.value) == url
  {
    if |url| < |QrPath| || url[|url| - |QrPath|..] != QrPath then None
    else
      var front := url[..|url| - |QrPath|];
      if |front| >= 8 && front[..8] == "https://" then
        assert url == front + QrPath;
        assert front == "https://" + front[8..];
        Some(Origin(true, front[8..]))
      else if |front| >= 7 && front[..7] == "http://" then
        assert url == front + QrPath;
        assert front == "http://" + front[7..];
        Some(Origin(false, front[7..]))
      else None
  }

  /** Parsing the URL of an origin gives that origin back. */
  lemma ParseQrUrlRoundTrip(o: Origin)
    ensures ParseQrUrl(QrUrl(o)) == Some(o)
  {
    var url := QrUrl(o);
    var front := Scheme(o.tlsPresent) + "://" + o.host;
    assert url == front + QrPath;
    assert url[..|url| - |QrPath|] == front;
    if o.tlsPresent {
      assert front[..8] == "https://";
      assert front[8..] == o.host;
    } else {
      assert front[..7] == "http://";
      assert !(|front| >= 8 && front[..8] == "https://") by { assert front[4] == ':'; }
      assert front[7..] == o.host;
    }
  }

  /** Distinct origins never share a QR URL: the URL tells scheme and host apart. */
  lemma QrUrlInjective(o1: Origin, o2: Origin)
    ensures QrUrl(o1) == QrUrl(o2) <==> o1 == o2
  {
    ParseQrUrlRoundTrip(o1);
    ParseQrUrlRoundTrip(o2);
  }
}
