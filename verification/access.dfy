/**
 * The client address reported by the access logger: the X-Real-IP request
 * header, else X-Forwarded-For, else the connection's remote address, with
 * everything from the last ':' on cut off as a port.
 */
module Access {
  import opened Routing
  import opened Text

  /** The address the request claims to come from, before any port is cut off. */
  function ClaimedAddress(header: map<string, string>, remoteAddr: string): (a: string)
    ensures a == Peek(header, "X-Real-IP") || a == Peek(header, "X-Forwarded-For") || a == remoteAddr
    ensures a == "" <==> Peek(header, "X-Real-IP") == "" && Peek(header, "X-Forwarded-For") == "" && remoteAddr == ""
  {
    var realIP := Peek(header, "X-Real-IP");
    if realIP != "" then realIP
    else
      var forwarded := Peek(header, "X-Forwarded-For");
      if forwarded != "" then forwarded else remoteAddr
  }

  /**
   * GetClientIP, with the remote address of the connection passed in as its
   * printed form. The result is the claimed address up to, not including,
   * its last ':'; an address without ':' is returned whole.
   */
  function GetClientIP(header: map<string, string>, remoteAddr: string): (ip: string)
    ensures var a := ClaimedAddress(header, remoteAddr);
      |ip| <= |a| && ip == a[..|ip|]
    ensures var a := ClaimedAddress(header, remoteAddr);
      ':' !in a ==> ip == a
    ensures var a := ClaimedAddress(header, remoteAddr);
      ':' in a ==> |ip| < |a| && a[|ip|] == ':' && ':' !in a[|ip| + 1..]
  {
    var ip := ClaimedAddress(header, remoteAddr);
    var colon := LastIndexOf(ip, ':');
    if colon != -1 then ip[..colon] else ip
  }

  /** Which source wins: a non-empty X-Real-IP, then a non-empty X-Forwarded-For, then the remote address. */
  lemma ClaimedAddressPrecedence(header: map<string, string>, remoteAddr: string)
    ensures Peek(header, "X-Real-IP") != "" ==> ClaimedAddress(header, remoteAddr) == header["X-Real-IP"]
    ensures Peek(header, "X-Real-IP") == "" && Peek(header, "X-Forwarded-For") != "" ==>
      ClaimedAddress(header, remoteAddr) == header["X-Forwarded-For"]
    ensures Peek(header, "X-Real-IP") == "" && Peek(header, "X-Forwarded-For") == "" ==>
      ClaimedAddress(header, remoteAddr) == remoteAddr
  {
  }

  /** A host with no ':' and a port: the port is dropped and the host kept whole. */
  lemma HostPortDropsPort(header: map<string, string>, host: string, port: string)
    requires Peek(header, "X-Real-IP") == "" && Peek(header, "X-Forwarded-For") == ""
    requires ':' !in host && ':' !in port
    ensures GetClientIP(header, host + ":" + port) == host
  {
    var a := host + ":" + port;
    assert a[|host|] == ':';
    assert a[|host| + 1..] == port;
  }

  /** The examples: a header value without a port is returned as is, "192.168.100.3:8080" as its host. */
  lemma ClientIPExamples()
    ensures GetClientIP(map["X-Real-IP" := "192.168.100.1", "X-Forwarded-For" := "192.168.100.2"], "192.168.100.3")
      == "192.168.100.1"
    ensures GetClientIP(map["X-Forwarded-For" := "192.168.100.2"], "192.168.100.3") == "192.168.100.2"
    ensures GetClientIP(map[], "192.168.100.3") == "192.168.100.3"
    ensures GetClientIP(map[], "192.168.100.3:8080") == "192.168.100.3"
  {
    HostPortDropsPort(map[], "192.168.100.3", "8080");
  }

  /** An IPv6 literal has ':' inside it, so its last group is cut off as though it were a port. */
  lemma IPv6LiteralIsCut()
    ensures GetClientIP(map["X-Real-IP" := "::1"], "") == ":"
  {
    assert LastIndexOf("::1", ':') == 1;
  }
}
