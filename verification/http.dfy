/** Request-reading conventions shared by the route handlers. */
module Http {
  import opened Wrappers
  import opened Text

  /** A header or field value JavaScript treats as true: present and non-empty. */
  predicate Truthy(h: Option<string>) {
    h.Some? && h.value != ""
  }

  /** `value || fallback`. */
  function OrElse(h: Option<string>, fallback: string): (r: string)
    ensures Truthy(h) ==> r == h.value
    ensures !Truthy(h) ==> r == fallback
  {
    if Truthy(h) then h.value else fallback
  }

  /** `authHeader?.replace('Bearer ', '')`, with an absent header read as the
      empty (missing) token. */
  function BearerToken(authorization: Option<string>): (r: string)
    ensures authorization.None? ==> r == ""
    ensures authorization.Some? ==> |r| <= |authorization.value|
    ensures authorization.Some? && "Bearer " <= authorization.value ==> "Bearer " + r == authorization.value
  {
    match authorization
    case None => ""
    case Some(h) => ReplaceFirst(h, "Bearer ", "")
  }

  /** `Bearer <t>` yields `t`; no header, or the bare prefix, yields the
      missing token; a header without the prefix is taken whole. */
  lemma BearerRoundTrip(t: string)
    ensures BearerToken(Some("Bearer " + t)) == t
    ensures BearerToken(Some("Bearer ")) == ""
    ensures BearerToken(None) == ""
  {
    assert "Bearer " <= "Bearer " + t;
    assert ("Bearer " + t)[7..] == t;
    assert "Bearer " <= "Bearer ";
  }

  /** A header that does not contain the prefix is taken whole. */
  lemma BearerWithoutPrefix(h: string)
    requires !Includes(h, "Bearer ")
    ensures BearerToken(Some(h)) == h
  {
  }

  /** `s.substring(0, n)` for `n >= 0`. */
  function Prefix(s: string, n: nat): (r: string)
    ensures |r| == if |s| <= n then |s| else n
    ensures r <= s
  {
    if |s| <= n then s else s[..n]
  }
}
