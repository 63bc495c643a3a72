/** How a source cookie is rewritten before it is written into the target
    (local development) origin. Both engines build the same object; the
    newer one adds the target store id when one is given. */
module TargetCookie {
  import opened Browser

  /** `cookie.path || '/'`: the path a source cookie is written under. */
  function EffectivePath(path: string): (p: string)
    ensures p != ""
    ensures path != "" ==> p == path
  {
    if path == "" then "/" else path
  }

  /** The details passed to `chrome.cookies.set` for source cookie `c` when
      the target is `targetUrl`, whose hostname is `host` and protocol
      `protocol`. */
  function Prepare(c: Cookie, targetUrl: string, host: string, protocol: string, storeId: Option<string>): (d: SetDetails)
    // identity: name and value are copied, the path defaults to '/'
    ensures d.url == targetUrl && d.domain == host
    ensures d.name == c.name && d.value == c.value && d.path == EffectivePath(c.path)
    // secure is never set on a non-https target, and kept on an https one
    ensures protocol != "https:" ==> !d.secure
    ensures protocol == "https:" ==> d.secure == c.secure
    ensures d.httpOnly == c.httpOnly
    // sameSite defaults to lax
    ensures d.sameSite != "" && (c.sameSite != "" ==> d.sameSite == c.sameSite)
    ensures c.sameSite == "" ==> d.sameSite == "lax"
    // only persistent cookies with an expiration keep it
    ensures d.expirationDate.Some? <==> !c.session && Truthy(c.expirationDate)
    ensures d.expirationDate.Some? ==> d.expirationDate == c.expirationDate
    ensures d.storeId == storeId
  {
    SetDetails(
      url := targetUrl,
      name := c.name,
      value := c.value,
      domain := host,
      path := EffectivePath(c.path),
      secure := if protocol == "https:" then c.secure else false,
      httpOnly := c.httpOnly,
      sameSite := if c.sameSite == "" then "lax" else c.sameSite,
      storeId := storeId,
      expirationDate := if !c.session && Truthy(c.expirationDate) then c.expirationDate else None)
  }
}
