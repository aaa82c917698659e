/**
 HTTP header maps as the filters see them: one string value per name, and a
 name that was never set reads as the empty string.
 */
module Headers {

  type Header = map<string, string>

  const CookieHeader: string := "Cookie"
  const SetCookieHeader: string := "Set-Cookie"
  /** The header the key-auth plugin reads the API key from. */
  const ApiKeyHeader: string := "apiKey"

  /**
   `Get`: the value under `name`, or "" (Go's zero value for a string) when
   the header is absent, so a header set to "" and a missing one read alike.
   */
  function Get(h: Header, name: string): (v: string)
    ensures name in h ==> v == h[name]
    ensures name !in h ==> v == ""
  {
    if name in h then h[name] else ""
  }

  /** `Set`: afterwards `name` reads as `value` and every other header reads as before. */
  function Set(h: Header, name: string, value: string): (h': Header)
    ensures Get(h', name) == value
    ensures forall other :: other != name ==> Get(h', other) == Get(h, other)
    ensures h'.Keys == h.Keys + {name}
  {
    h[name := value]
  }
}
