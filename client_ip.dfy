/**
 * The client address a request reports: the first X-Forwarded-For entry,
 * then X-Real-IP, then CF-Connecting-IP, each only when it parses as an IP
 * address, and finally the host of the connection's remote address.
 *
 * net.ParseIP and net.SplitHostPort are parameters: whether a text parses
 * as an address, and the host part of "host:port" if it splits.
 */
module ClientIp {
  import opened Wrappers
  import opened GoStrings

  /** The headers the extraction reads ("" when absent) and the remote address. */
  datatype Request = Request(forwardedFor: string, realIp: string, cfConnectingIp: string, remoteAddr: string)

  /** The first comma-separated entry of X-Forwarded-For, without surrounding white space. */
  function FirstForwarded(xff: string): string {
    TrimSpace(SplitOn(xff, ',')[0])
  }

  /** extractClientIP */
  function ExtractClientIp(req: Request, parseIp: string -> bool, splitHostPort: string -> Option<string>): (ip: string)
    ensures ip == FirstForwarded(req.forwardedFor) || ip == req.realIp || ip == req.cfConnectingIp
         || ip == req.remoteAddr || splitHostPort(req.remoteAddr) == Some(ip)
  {
    var first := FirstForwarded(req.forwardedFor);
    if req.forwardedFor != "" && parseIp(first) then first
    else if req.realIp != "" && parseIp(req.realIp) then req.realIp
    else if req.cfConnectingIp != "" && parseIp(req.cfConnectingIp) then req.cfConnectingIp
    else match splitHostPort(req.remoteAddr)
      case None => req.remoteAddr
      case Some(host) => host
  }

  /** A parseable first X-Forwarded-For entry wins over every other source. */
  lemma ForwardedForFirst(req: Request, parseIp: string -> bool, splitHostPort: string -> Option<string>)
    requires req.forwardedFor != "" && parseIp(FirstForwarded(req.forwardedFor))
    ensures ExtractClientIp(req, parseIp, splitHostPort) == FirstForwarded(req.forwardedFor)
  {
  }

  /** Only the first X-Forwarded-For entry counts: whatever follows the first comma is never looked at. */
  lemma LaterForwardedIgnored(req: Request, first: string, rest: string, rest': string,
                              parseIp: string -> bool, splitHostPort: string -> Option<string>)
    requires ',' !in first && req.forwardedFor == first + "," + rest
    ensures FirstForwarded(req.forwardedFor) == TrimSpace(first)
    ensures ExtractClientIp(req, parseIp, splitHostPort) ==
            ExtractClientIp(req.(forwardedFor := first + "," + rest'), parseIp, splitHostPort)
  {
    ForwardedPrefix(first, rest);
    ForwardedPrefix(first, rest');
    SameFirstEntrySameIp(req, req.(forwardedFor := first + "," + rest'), parseIp, splitHostPort);
  }

  /** Two requests that differ only after the first forwarded entry report the same address. */
  lemma SameFirstEntrySameIp(req: Request, req': Request, parseIp: string -> bool, splitHostPort: string -> Option<string>)
    requires req.forwardedFor != "" && req'.forwardedFor != ""
    requires FirstForwarded(req.forwardedFor) == FirstForwarded(req'.forwardedFor)
    requires req' == req.(forwardedFor := req'.forwardedFor)
    ensures ExtractClientIp(req, parseIp, splitHostPort) == ExtractClientIp(req', parseIp, splitHostPort)
  {
    assert req'.realIp == req.realIp && req'.cfConnectingIp == req.cfConnectingIp && req'.remoteAddr == req.remoteAddr;
  }

  lemma ForwardedPrefix(first: string, rest: string)
    requires ',' !in first
    ensures FirstForwarded(first + "," + rest) == TrimSpace(first)
  {
    var s := first + "," + rest;
    assert s[..|first|] == first;
    IndexOfAt(s, ',', |first|);
    SplitOnFirst(s, ',');
  }

  /** Without a parseable forwarded entry, a parseable X-Real-IP is used. */
  lemma RealIpSecond(req: Request, parseIp: string -> bool, splitHostPort: string -> Option<string>)
    requires !(req.forwardedFor != "" && parseIp(FirstForwarded(req.forwardedFor)))
    requires req.realIp != "" && parseIp(req.realIp)
    ensures ExtractClientIp(req, parseIp, splitHostPort) == req.realIp
  {
  }

  /** Then a parseable CF-Connecting-IP. */
  lemma CloudflareThird(req: Request, parseIp: string -> bool, splitHostPort: string -> Option<string>)
    requires !(req.forwardedFor != "" && parseIp(FirstForwarded(req.forwardedFor)))
    requires !(req.realIp != "" && parseIp(req.realIp))
    requires req.cfConnectingIp != "" && parseIp(req.cfConnectingIp)
    ensures ExtractClientIp(req, parseIp, splitHostPort) == req.cfConnectingIp
  {
  }

  /** Otherwise the host of the remote address, or the remote address itself when it does not split. */
  lemma RemoteAddrLast(req: Request, parseIp: string -> bool, splitHostPort: string -> Option<string>)
    requires !(req.forwardedFor != "" && parseIp(FirstForwarded(req.forwardedFor)))
    requires !(req.realIp != "" && parseIp(req.realIp))
    requires !(req.cfConnectingIp != "" && parseIp(req.cfConnectingIp))
    ensures ExtractClientIp(req, parseIp, splitHostPort) ==
      if splitHostPort(req.remoteAddr).Some? then splitHostPort(req.remoteAddr).value else req.remoteAddr
  {
  }

  /** Whatever a header contributes parses as an address: an unparseable value only ever comes from the remote address. */
  lemma HeaderValuesParse(req: Request, parseIp: string -> bool, splitHostPort: string -> Option<string>)
    requires !parseIp(ExtractClientIp(req, parseIp, splitHostPort))
    ensures ExtractClientIp(req, parseIp, splitHostPort) == req.remoteAddr
         || splitHostPort(req.remoteAddr) == Some(ExtractClientIp(req, parseIp, splitHostPort))
  {
  }
}
