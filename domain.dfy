/** Outbound server resolution from the sender's address: the domain is the text
    between the first '@' and the first '.' after it, looked up case-sensitively
    in a three-entry table. The reader and the sender each carry a copy of this
    code; here it is defined once and both classes use it. */
module Domain {
  import opened PyStr
  import opened Parameters

  datatype Server = Server(host: string, port: int)

  const SMTP_PORT: int := 587

  /** `extract_domain(email)`: `None` when there is no '@' or no '.' after it,
      otherwise the (possibly empty) text strictly between the two. */
  function ExtractDomain(email: string): (r: Option<string>)
    ensures '@' !in email ==> r.None?
    ensures r.Some? ==> '.' !in r.value && |r.value| + 2 <= |email|
  {
    var at := Find(email, '@', 0);
    var dot := if at == -1 then -1 else Find(email, '.', at);
    if at != -1 && dot != -1 then Some(email[at + 1..dot]) else None
  }

  /** Every address of the shape pre@domain.rest, with no '@' before the first one
      and no '.' inside the domain, yields exactly that domain. */
  lemma DomainOfAddress(pre: string, domain: string, rest: string)
    requires '@' !in pre && '.' !in domain
    ensures ExtractDomain(pre + ['@'] + domain + ['.'] + rest) == Some(domain)
  {
    var email := pre + ['@'] + domain + ['.'] + rest;
    assert email[|pre|] == '@';
    assert forall k | 0 <= k < |pre| :: email[k] == pre[k];
    assert Find(email, '@', 0) == |pre|;
    assert email[|pre| + 1 + |domain|] == '.';
    assert forall k | |pre| < k < |pre| + 1 + |domain| :: email[k] == domain[k - |pre| - 1];
    assert Find(email, '.', |pre|) == |pre| + 1 + |domain|;
    assert forall k | 0 <= k < |domain| :: email[|pre| + 1..|pre| + 1 + |domain|][k] == domain[k];
    assert email[|pre| + 1..|pre| + 1 + |domain|] == domain;
  }

  /** Conversely, every domain the function returns comes from such a decomposition,
      so `None` means no address shape pre@domain.rest exists. */
  lemma AddressOfDomain(email: string) returns (pre: string, rest: string)
    requires ExtractDomain(email).Some?
    ensures '@' !in pre
    ensures email == pre + ['@'] + ExtractDomain(email).value + ['.'] + rest
  {
    var at := Find(email, '@', 0);
    var dot := Find(email, '.', at);
    pre, rest := email[..at], email[dot + 1..];
    assert forall k | 0 <= k < at :: pre[k] == email[k];
    assert email == email[..at] + [email[at]] + email[at + 1..dot] + [email[dot]] + email[dot + 1..];
  }

  /** The table shared by validation and dispatch: gmail, yahoo and outlook,
      compared case-sensitively, all on port 587. */
  function ServerFor(domain: Option<string>): (r: Option<Server>)
    ensures r.Some? <==> domain in {Some("gmail"), Some("yahoo"), Some("outlook")}
    ensures r.Some? ==> r.value.port == SMTP_PORT
    ensures domain == Some("gmail") ==> r == Some(Server("smtp.gmail.com", SMTP_PORT))
    ensures domain == Some("yahoo") ==> r == Some(Server("smtp.mail.yahoo.com", SMTP_PORT))
    ensures domain == Some("outlook") ==> r == Some(Server("smtp.office365.com", SMTP_PORT))
  {
    if domain == Some("gmail") then Some(Server("smtp.gmail.com", SMTP_PORT))
    else if domain == Some("yahoo") then Some(Server("smtp.mail.yahoo.com", SMTP_PORT))
    else if domain == Some("outlook") then Some(Server("smtp.office365.com", SMTP_PORT))
    else None
  }

  /** The server for a sender address, or `None` when its domain is unsupported. */
  function Resolve(email: string): (r: Option<Server>)
    ensures '@' !in email ==> r.None?
    ensures r.Some? <==> ExtractDomain(email).Some? && ExtractDomain(email).value in {"gmail", "yahoo", "outlook"}
    ensures r.Some? ==> r.value.port == SMTP_PORT
  {
    ServerFor(ExtractDomain(email))
  }

  /** The two entries `add_server_configuration` writes into the dictionary. */
  function WithServer(m: Params, s: Server): (r: Params)
    ensures r.Keys == m.Keys + {SERVER, PORT}
    ensures r[SERVER] == Str(s.host) && r[PORT] == Int(s.port)
    ensures forall k | k in m && k !in {SERVER, PORT} :: r[k] == m[k]
  {
    m[SERVER := Str(s.host)][PORT := Int(s.port)]
  }

  /** Writing the same server twice changes nothing: resolving again at login
      time leaves an already-configured dictionary as it was. */
  lemma WithServerIdempotent(m: Params, s: Server)
    ensures WithServer(WithServer(m, s), s) == WithServer(m, s)
  {
  }

  /** `add_server_configuration(email)`, which `ConfigReader` and `EmailSender` each
      run against the one dictionary they share: writes the server and port of a
      supported sender domain and reports whether it did; an unsupported domain
      leaves the dictionary untouched. */
  method AddServerConfiguration(d: Dict, email: string) returns (ok: bool)
    modifies d
    ensures ok <==> Resolve(email).Some?
    ensures d.items == if ok then WithServer(old(d.items), Resolve(email).value) else old(d.items)
  {
    var server := ServerFor(ExtractDomain(email));
    if server.None? {
      return false;
    }
    d.items := WithServer(d.items, server.value);
    return true;
  }

  /** A sender at outlook resolves to its table entry, whatever comes before the
      '@' and after the domain. */
  lemma ResolveOutlook(pre: string, rest: string)
    requires '@' !in pre
    ensures Resolve(pre + "@outlook." + rest) == Some(Server("smtp.office365.com", 587))
  {
    DomainOfAddress(pre, "outlook", rest);
    assert pre + "@outlook." + rest == pre + ['@'] + "outlook" + ['.'] + rest;
  }

  /** An empty domain is extracted but not supported. */
  lemma ResolveEmptyDomain(pre: string, rest: string)
    requires '@' !in pre
    ensures ExtractDomain(pre + "@." + rest) == Some("") && Resolve(pre + "@." + rest) == None
  {
    DomainOfAddress(pre, "", rest);
    assert pre + "@." + rest == pre + ['@'] + "" + ['.'] + rest;
  }

  /** The comparison is case-sensitive: a capitalised domain is not supported. */
  lemma ResolveCapitalised(pre: string, rest: string)
    requires '@' !in pre
    ensures Resolve(pre + "@Gmail." + rest) == None
  {
    DomainOfAddress(pre, "Gmail", rest);
    assert pre + "@Gmail." + rest == pre + ['@'] + "Gmail" + ['.'] + rest;
    assert "Gmail"[0] != "gmail"[0];
  }

  /** A '.' before the '@' does not count: with no '.' after the first '@',
      there is no domain, whatever precedes it (`first.last@gmail`). */
  lemma DotBeforeAt(pre: string, post: string)
    requires '@' !in pre && '.' !in post
    ensures ExtractDomain(pre + "@" + post) == None
  {
    var e := pre + "@" + post;
    assert e[|pre|] == '@';
    assert forall k | 0 <= k < |pre| :: e[k] == pre[k];
    assert Find(e, '@', 0) == |pre|;
    assert forall k | |pre| <= k < |e| :: e[k] != '.' by {
      forall k | |pre| < k < |e|
        ensures e[k] != '.'
      {
        assert e[k] == post[k - |pre| - 1];
      }
    }
  }
}
