/** The audit event as the three servers receive it, and the server-side data
    they attach to it before storing it. */
module AuditEvent {
  import opened Optional
  import opened JsString

  /** What `hashIP` returns: the first 16 lower-case hexadecimal digits of a
      SHA-256 digest. The digest itself is a parameter of the model. */
  type IpHash = s: string | |s| == 16 && forall i :: 0 <= i < |s| ==> s[i] in "0123456789abcdef"
    witness "0000000000000000"

  /** The `server` object a handler attaches to an event. */
  datatype ServerInfo = ServerInfo(
    receivedAt: string,
    ip: string,
    ipHash: IpHash,
    userAgent: Option<string>,
    referer: Option<string>)

  /** The properties of an event that some part of the core reads. `kind` is
      the JavaScript property `type` (written by the browser collector and read
      by the Express server); `eventType` is the property the serverless
      functions group by. `pagePath` is `page.path`, `deviceType` is
      `device.type`. Every other property is carried along unread. */
  datatype Event = Event(
    eventType: Option<string>,
    kind: Option<string>,
    visitorId: Option<string>,
    sessionId: Option<string>,
    timestamp: Option<string>,
    pagePath: Option<string>,
    deviceType: Option<string>,
    duration: Option<int>,
    depth: Option<int>,
    server: Option<ServerInfo>)

  /** An event with none of the modelled properties set. */
  const Blank := Event(None, None, None, None, None, None, None, None, None, None)

  /** Request headers by lower-case name, as Node.js presents them. */
  type Headers = map<string, string>

  function Header(h: Headers, name: string): (r: Option<string>)
    ensures r.Some? <==> name in h
  {
    if name in h then Some(h[name]) else None
  }

  /** `headers['x-forwarded-for']?.split(',')[0]`: the text before the first
      comma of the header, when the header is present. */
  function ForwardedFor(h: Headers): (r: Option<string>)
    ensures "x-forwarded-for" !in h ==> r == None
    ensures "x-forwarded-for" in h ==>
      var v := h["x-forwarded-for"];
      r == Some(if ',' in v then v[..IndexOf(v, ',')] else v)
  {
    match Header(h, "x-forwarded-for")
    case None => None
    case Some(v) => Some(Split(v, ',')[0])
  }

  /** `getClientIP` of the serverless function with a query-string router: the
      forwarded-for address, else `x-real-ip`, else the socket address, else
      `'unknown'`; an empty string counts as absent at every step. */
  function ClientIpWithSocket(h: Headers, socket: Option<string>): (ip: string)
    ensures Truthy(ForwardedFor(h)) ==> ip == ForwardedFor(h).value
    ensures !Truthy(ForwardedFor(h)) && Truthy(Header(h, "x-real-ip")) ==> ip == h["x-real-ip"]
    ensures !Truthy(ForwardedFor(h)) && !Truthy(Header(h, "x-real-ip")) && Truthy(socket) ==> ip == socket.value
    ensures !Truthy(ForwardedFor(h)) && !Truthy(Header(h, "x-real-ip")) && !Truthy(socket) ==> ip == "unknown"
    ensures ip != ""
  {
    Or(Or(Or(ForwardedFor(h), Header(h, "x-real-ip")), socket), Some("unknown")).value
  }

  /** `getClientIP` of the serverless function with a path router: as above
      but with no socket fallback. */
  function ClientIpHeadersOnly(h: Headers): (ip: string)
    ensures Truthy(ForwardedFor(h)) ==> ip == ForwardedFor(h).value
    ensures !Truthy(ForwardedFor(h)) && Truthy(Header(h, "x-real-ip")) ==> ip == h["x-real-ip"]
    ensures !Truthy(ForwardedFor(h)) && !Truthy(Header(h, "x-real-ip")) ==> ip == "unknown"
    ensures ip != ""
  {
    Or(Or(ForwardedFor(h), Header(h, "x-real-ip")), Some("unknown")).value
  }

  /** `getClientIP` of the Express server: the socket address is the last
      operand, so the result is that address as it is (possibly `''` or
      `undefined`) when no header supplies one. */
  function ClientIpExpress(h: Headers, socket: Option<string>): (ip: Option<string>)
    ensures Truthy(ForwardedFor(h)) ==> ip == ForwardedFor(h)
    ensures !Truthy(ForwardedFor(h)) && Truthy(Header(h, "x-real-ip")) ==> ip == Header(h, "x-real-ip")
    ensures !Truthy(ForwardedFor(h)) && !Truthy(Header(h, "x-real-ip")) ==> ip == socket
  {
    Or(Or(ForwardedFor(h), Header(h, "x-real-ip")), socket)
  }

  /** `event.server = { receivedAt, ip, ipHash: hashIP(ip), userAgent, referer }`:
      the client's own `server` property is replaced; the stored address and
      its hash come from the same resolved client address. */
  function Stamp(e: Event, receivedAt: string, ip: string, hash: string -> IpHash, h: Headers): (r: Event)
    ensures r.server.Some?
    ensures r.server.value.ip == ip && r.server.value.ipHash == hash(ip)
    ensures r.server.value.receivedAt == receivedAt
    ensures r.server.value.userAgent == Header(h, "user-agent")
    ensures r.server.value.referer == Or(Header(h, "referer"), Header(h, "referrer"))
    ensures r.(server := e.server) == e
  {
    e.(server := Some(ServerInfo(receivedAt, ip, hash(ip), Header(h, "user-agent"),
                                 Or(Header(h, "referer"), Header(h, "referrer")))))
  }
}
