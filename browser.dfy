/** The values the extension exchanges with the browser: parsed URLs,
    cookies as the cookie store reports them, the details handed to the
    store's `set` call, and the outcome of each call into the store.
    The store itself is not modelled: what it returns is an input. */
module Browser {

  datatype Option<+T> = None | Some(value: T)

  /** What `new URL(text)` yields: the protocol (with its trailing ':') and
      the hostname, or the message of the exception it throws. */
  datatype ParsedUrl = Url(protocol: string, hostname: string) | Malformed(message: string)

  /** A cookie as `chrome.cookies.getAll` reports it. An empty `path` or
      `sameSite` stands for a missing (falsy) property. */
  datatype Cookie = Cookie(
    name: string,
    value: string,
    domain: string,
    path: string,
    secure: bool,
    httpOnly: bool,
    sameSite: string,
    session: bool,
    expirationDate: Option<real>)

  /** The object handed to `chrome.cookies.set`. */
  datatype SetDetails = SetDetails(
    url: string,
    name: string,
    value: string,
    domain: string,
    path: string,
    secure: bool,
    httpOnly: bool,
    sameSite: string,
    storeId: Option<string>,
    expirationDate: Option<real>)

  /** The result of one `chrome.cookies.getAll` call: the cookies, or the
      message of the error it threw. */
  datatype Fetch = Fetched(cookies: seq<Cookie>) | FetchFailed(message: string)

  /** The result of one `chrome.cookies.set` or `chrome.cookies.remove`
      call: it completed, or it threw with a message. */
  datatype Attempt = Done | Threw(message: string)

  /** JavaScript truthiness of an optional number: absent and 0 are falsy. */
  predicate Truthy(x: Option<real>) {
    x.Some? && x.value != 0.0
  }
}
