/** The outcome of checking a handshake message's MACs, `enum cookie_mac_state`.
    The check itself is cryptographic and is not part of this model; the
    receive path only branches on its answer. */
module Cookie {

  datatype CookieMacState =
    | InvalidMac
    | ValidMacButNoCookie
    | ValidMacWithCookieButRatelimited
    | ValidMacWithCookie
}
