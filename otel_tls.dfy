/**
 * Whether the OpenTelemetry exporter talks TLS to its collector: it does when the
 * collector URL has the scheme "https", in any letter case. The URL, which the
 * process reads from a flag, is a parameter here.
 */
module OtelTls {
  import opened Strings

  /** The model of `otel_tls_enabled`: the collector URL starts with "https://", ignoring case. */
  function TlsEnabled(collectorUrl: string): (r: bool)
    ensures r <==> exists p :: StartsWith(collectorUrl, p) && Lower(p) == "https://"
  {
    var r := StartsWith(Lower(collectorUrl), "https://");
    if r then
      assert StartsWith(collectorUrl, collectorUrl[..8]) && Lower(collectorUrl[..8]) == "https://" by {
        LowerPrefix(collectorUrl, 8);
      }
      r
    else
      assert forall p :: StartsWith(collectorUrl, p) && Lower(p) == "https://" ==> false by {
        forall p | StartsWith(collectorUrl, p) && Lower(p) == "https://"
          ensures false
        {
          LowerPrefix(collectorUrl, |p|);
        }
      }
      r
  }

  lemma TlsVectors(a: string, b: string, c: string, d: string)
    requires a == "https://foo.com" && b == "HTTPS://foo.com"
    requires c == "http://foo.com" && d == "HTTP://foo.com"
    ensures TlsEnabled(a) && TlsEnabled(b)
    ensures !TlsEnabled("") && !TlsEnabled(c) && !TlsEnabled(d)
  {
    assert Lower(a)[..8] == "https://";
    assert Lower(b)[..8] == "https://";
    assert Lower(c)[4] == ':';
    assert Lower(d)[4] == ':';
  }
}
