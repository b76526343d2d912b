/** `validate_url` and `validate_url_list`: a URL must pass Django's URL validator for
    the allowed schemes; with `allow_plain_hostname`, a dot-less host is first rewritten
    to `<host>.localhost` so that intranet names pass. */
module UrlValidation {
  import opened PyValues
  import opened Strings

  const ValidString := "Must be a valid string"
  const NotAList := "Must be a list of urls"
  const DefaultSchemes: seq<string> := ["https"]
  const LocalhostSuffix := ".localhost"

  /** A validator returns normally (`Valid`) or raises a `ValidationError` with a message. */
  datatype Outcome = Valid | Invalid(message: string)

  /** What reading `.port` of a parse result gives: no port, its number, or the
      `ValueError` the accessor raises for a port that is not a number in 0-65535. */
  datatype PortField = NoPort | PortNumber(n: nat) | PortError(message: string)

  /** The components `urlparse` yields. */
  datatype UrlParts = UrlParts(
    scheme: string,
    username: Option<string>,
    password: Option<string>,
    hostname: Option<string>,
    port: PortField,
    path: string,
    params: string,
    query: string,
    fragment: string)

  datatype ParseResult = Parsed(parts: UrlParts) | ParseError(message: string)

  /** The five components `urlunsplit` takes. */
  datatype SplitParts = SplitParts(scheme: string, netloc: string, path: string, query: string, fragment: string)

  /** The foreign URL code the validators call. */
  datatype UrlLibrary = UrlLibrary(
    parse: string -> ParseResult,                    // urlparse(url), or the ValueError it raises
    unsplit: SplitParts -> string,                   // urlunsplit(parts)
    check: (string, seq<string>) -> Option<string>)  // URLValidator(schemes)(url): None, or the message of its error

  /** The string handed to `URLValidator`, or the message of the error raised before it. */
  datatype Submission = Submit(url: string) | Fail(message: string)

  /** The host the rewrite applies to: present, non-empty and without a dot. */
  predicate PlainHost(p: UrlParts)
  {
    Truthy(p.hostname) && '.' !in p.hostname.value
  }

  /** The `user[:password]@` prefix of the rebuilt authority. */
  function UserInfo(username: Option<string>, password: Option<string>): (r: string)
    ensures r == "" <==> !Truthy(username) && !Truthy(password)
    ensures r != "" ==> r[|r| - 1] == '@'
  {
    var info := Text(username) + (if Truthy(password) then ":" + password.value else "");
    if info == "" then "" else info + "@"
  }

  /** The `:port` suffix of the rebuilt authority; a port of 0 counts as absent. */
  function PortSuffix(port: PortField): (r: string)
    requires !port.PortError?
    ensures r == "" <==> !(port.PortNumber? && port.n != 0)
    ensures r != "" ==> r[0] == ':' && |r| > 1 && r[1] != '0' && IsDigits(r[1..]) && DigitsValue(r[1..]) == port.n
  {
    if port.PortNumber? && port.n != 0 then
      NatToStringRoundTrip(port.n);
      assert (":" + NatToString(port.n))[1..] == NatToString(port.n);
      ":" + NatToString(port.n)
    else ""
  }

  /** The host that replaces a plain one. */
  function LocalHost(hostname: string): (r: string)
    ensures '.' in r && |r| == |hostname| + |LocalhostSuffix|
    ensures r[..|hostname|] == hostname && r[|hostname|..] == LocalhostSuffix
  {
    var r := hostname + LocalhostSuffix;
    assert r[|hostname|] == '.';
    r
  }

  /** The rebuilt authority `[userinfo "@"] host [":" port]`. */
  function Netloc(p: UrlParts): string
    requires PlainHost(p) && !p.port.PortError?
  {
    UserInfo(p.username, p.password) + LocalHost(p.hostname.value) + PortSuffix(p.port)
  }

  /** The components handed to `urlunsplit` by the rewrite. */
  function RewrittenParts(p: UrlParts): SplitParts
    requires PlainHost(p) && !p.port.PortError?
  {
    SplitParts(p.scheme, Netloc(p), p.path, p.query, p.fragment)
  }

  /** What reaches the URL validator for the string `url`: the string itself unless
      the rewrite applies, the rebuilt URL when it does, or the error met on the way. */
  function ValidatorInput(url: string, allowPlainHostname: bool, lib: UrlLibrary): (r: Submission)
    ensures !allowPlainHostname ==> r == Submit(url)
    ensures allowPlainHostname && lib.parse(url).ParseError? ==> r == Fail(lib.parse(url).message)
    ensures allowPlainHostname && lib.parse(url).Parsed? && !PlainHost(lib.parse(url).parts) ==> r == Submit(url)
    ensures allowPlainHostname && lib.parse(url).Parsed? && PlainHost(lib.parse(url).parts) ==>
              var p := lib.parse(url).parts;
              r == if p.port.PortError? then Fail(p.port.message) else Submit(lib.unsplit(RewrittenParts(p)))
    ensures r.Submit? && r.url != url ==>
              allowPlainHostname && lib.parse(url).Parsed? && PlainHost(lib.parse(url).parts)
  {
    if !allowPlainHostname then Submit(url)
    else
      match lib.parse(url)
      case ParseError(m) => Fail(m)
      case Parsed(p) =>
        if !PlainHost(p) then Submit(url)
        else if p.port.PortError? then Fail(p.port.message)
        else Submit(lib.unsplit(RewrittenParts(p)))
  }

  /** The last step: `URLValidator` accepts the string, or its error becomes a `ValidationError`. */
  function Check(u: string, schemes: seq<string>, lib: UrlLibrary): (r: Outcome)
    ensures r == Valid <==> lib.check(u, schemes).None?
    ensures r.Invalid? ==> r.message == lib.check(u, schemes).value
  {
    match lib.check(u, schemes)
    case None => Valid
    case Some(m) => Invalid(m)
  }

  /** The outcome of `validate_url(url, schemes, allow_plain_hostname)`, with a
      `ValueError` from the port accessor reported like a parse error. */
  function UrlVerdict(url: Value, schemes: seq<string>, allowPlainHostname: bool, lib: UrlLibrary): (r: Outcome)
    ensures !url.Str? ==> r == Invalid(ValidString)
    ensures url.Str? ==>
              var input := ValidatorInput(url.s, allowPlainHostname, lib);
              (r == Valid <==> input.Submit? && lib.check(input.url, schemes).None?)
              && (input.Fail? ==> r == Invalid(input.message))
              && (input.Submit? && lib.check(input.url, schemes).Some? ==>
                    r == Invalid(lib.check(input.url, schemes).value))
  {
    if !url.Str? then Invalid(ValidString)
    else
      match ValidatorInput(url.s, allowPlainHostname, lib)
      case Fail(m) => Invalid(m)
      case Submit(u) => Check(u, schemes, lib)
  }

  /** `validate_url`, step by step as the source runs it. */
  method ValidateUrl(url: Value, schemes: seq<string>, allowPlainHostname: bool, lib: UrlLibrary)
    returns (r: Outcome)
    ensures r == UrlVerdict(url, schemes, allowPlainHostname, lib)
  {
    if !url.Str? {
      return Invalid(ValidString);
    }
    var u := url.s;
    if allowPlainHostname {
      var parsed := lib.parse(u);
      if parsed.ParseError? {
        return Invalid(parsed.message);
      }
      var parts := parsed.parts;
      var userInfo := "";
      if Truthy(parts.username) {
        userInfo := parts.username.value;
      }
      if Truthy(parts.password) {
        userInfo := userInfo + ":" + parts.password.value;
      }
      if userInfo != "" {
        userInfo := userInfo + "@";
      }
      assert userInfo == UserInfo(parts.username, parts.password);
      if Truthy(parts.hostname) && '.' !in parts.hostname.value {
        var hostname := parts.hostname.value + LocalhostSuffix;
        if parts.port.PortError? {
          return Invalid(parts.port.message);
        }
        var port := if parts.port.PortNumber? && parts.port.n != 0 then ":" + NatToString(parts.port.n) else "";
        var netloc := userInfo + hostname + port;
        assert netloc == Netloc(parts);
        u := lib.unsplit(SplitParts(parts.scheme, netloc, parts.path, parts.query, parts.fragment));
      }
    }
    assert ValidatorInput(url.s, allowPlainHostname, lib) == Submit(u);
    var rejection := lib.check(u, schemes);
    if rejection.Some? {
      return Invalid(rejection.value);
    }
    return Valid;
  }

  /** What `validate_url` does as written: the port accessor's `ValueError` is read
      outside the `try`, so it escapes instead of becoming a `ValidationError`. */
  datatype Raised = Returned(outcome: Outcome) | Escaped(valueError: string)

  function ValidateUrlAsWritten(url: Value, schemes: seq<string>, allowPlainHostname: bool, lib: UrlLibrary): (r: Raised)
    ensures r.Escaped? <==>
              url.Str? && allowPlainHostname && lib.parse(url.s).Parsed?
              && PlainHost(lib.parse(url.s).parts) && lib.parse(url.s).parts.port.PortError?
  {
    if !url.Str? then Returned(Invalid(ValidString))
    else if !allowPlainHostname then Returned(Check(url.s, schemes, lib))
    else
      match lib.parse(url.s)
      case ParseError(m) => Returned(Invalid(m))
      case Parsed(p) =>
        if !PlainHost(p) then Returned(Check(url.s, schemes, lib))
        else if p.port.PortError? then Escaped(p.port.message)
        else Returned(Check(lib.unsplit(RewrittenParts(p)), schemes, lib))
  }

  /** Apart from the escaping `ValueError`, the code as written and the corrected
      validator agree on every input. */
  lemma AsWrittenAgreesElsewhere(url: Value, schemes: seq<string>, allowPlainHostname: bool, lib: UrlLibrary)
    ensures ValidateUrlAsWritten(url, schemes, allowPlainHostname, lib).Returned? ==>
              ValidateUrlAsWritten(url, schemes, allowPlainHostname, lib).outcome == UrlVerdict(url, schemes, allowPlainHostname, lib)
    ensures ValidateUrlAsWritten(url, schemes, allowPlainHostname, lib).Escaped? ==>
              UrlVerdict(url, schemes, allowPlainHostname, lib) == Invalid(ValidateUrlAsWritten(url, schemes, allowPlainHostname, lib).valueError)
  {
  }

  const PortCastError := "Port could not be cast to integer value as 'abc'"

  /** A `urlparse` that finds the plain host "junk" and a port that is not a number,
      and a `URLValidator` that accepts everything. */
  function BadPortLibrary(): UrlLibrary
  {
    UrlLibrary(
      (u: string) => Parsed(UrlParts("https", None, None, Some("junk"), PortError(PortCastError), "", "", "", "")),
      (sp: SplitParts) => "https://junk.localhost",
      (u: string, schemes: seq<string>) => None)
  }

  /** `validate_url("https://junk:abc", allow_plain_hostname=True)`: the host is
      plain, `urlparse` succeeds, and reading the port raises. */
  lemma BadPortEscapes()
    ensures
      var lib := BadPortLibrary();
      ValidateUrlAsWritten(Str("https://junk:abc"), DefaultSchemes, true, lib) == Escaped(PortCastError)
      && UrlVerdict(Str("https://junk:abc"), DefaultSchemes, true, lib) == Invalid(PortCastError)
  {
  }

  /** The rewrite rebuilds the URL with `urlunsplit` from `urlparse`'s parts, so the
      `;params` of the last path segment are not part of what is validated. */
  lemma RewriteDropsParams(p: UrlParts, params: string)
    requires PlainHost(p) && !p.port.PortError?
    ensures RewrittenParts(p.(params := params)) == RewrittenParts(p)
  {
  }

  /** One reading of `authority = [ userinfo "@" ] host [ ":" port ]` (section 3.2 of
      RFC 3986): the userinfo ends at the last '@', the port starts after the last ':'
      that follows it, and a userinfo splits into user and password at its first ':'. */
  datatype Authority = Authority(username: Option<string>, password: Option<string>, host: string, port: Option<string>)

  /** `[ userinfo "@" ] rest`, split at the last '@'. */
  function SplitUserInfo(a: string): (Option<string>, string)
  {
    match LastIndex(a, '@')
    case None => (None, a)
    case Some(i) => (Some(a[..i]), a[i + 1..])
  }

  /** `user [ ":" password ]`, split at the first ':'. */
  function SplitCredentials(info: string): (string, Option<string>)
  {
    match FirstIndex(info, ':')
    case None => (info, None)
    case Some(j) => (info[..j], Some(info[j + 1..]))
  }

  /** `host [ ":" port ]`, split at the last ':'. */
  function SplitHostPort(hostport: string): (string, Option<string>)
  {
    match LastIndex(hostport, ':')
    case None => (hostport, None)
    case Some(k) => (hostport[..k], Some(hostport[k + 1..]))
  }

  function SplitAuthority(a: string): Authority
  {
    var (info, hostport) := SplitUserInfo(a);
    var (username, password) := if info.Some? then SplitCredentials(info.value) else ("", None);
    var (host, port) := SplitHostPort(hostport);
    Authority(if info.Some? then Some(username) else None, password, host, port)
  }

  /** The text `sep + v` when `o` holds `v`, nothing otherwise. */
  function Optional(sep: char, o: Option<string>): string
  {
    if o.Some? then [sep] + o.value else ""
  }

  lemma UserInfoRoundTrip(info: Option<string>, rest: string)
    requires '@' !in rest
    ensures SplitUserInfo((if info.Some? then info.value + "@" else "") + rest) == (info, rest)
  {
    if info.Some? {
      var a := info.value + "@" + rest;
      assert a == info.value + ['@'] + rest;
      LastIndexBefore(info.value, '@', rest);
      assert a[..|info.value|] == info.value;
      assert a[|info.value| + 1..] == rest;
    } else {
      assert "" + rest == rest;
    }
  }

  lemma CredentialsRoundTrip(user: string, password: Option<string>)
    requires ':' !in user
    ensures SplitCredentials(user + Optional(':', password)) == (user, password)
  {
    var info := user + Optional(':', password);
    if password.Some? {
      assert info == user + [':'] + password.value;
      FirstIndexAfter(user, ':', password.value);
      assert info[..|user|] == user;
      assert info[|user| + 1..] == password.value;
    } else {
      assert info == user;
    }
  }

  lemma HostPortRoundTrip(host: string, port: Option<string>)
    requires ':' !in host
    requires port.Some? ==> ':' !in port.value
    ensures SplitHostPort(host + Optional(':', port)) == (host, port)
  {
    var hostport := host + Optional(':', port);
    if port.Some? {
      assert hostport == host + [':'] + port.value;
      LastIndexBefore(host, ':', port.value);
      assert hostport[..|host|] == host;
      assert hostport[|host| + 1..] == port.value;
    } else {
      assert hostport == host;
    }
  }

  /** The port text the rebuilt authority carries, when it carries one. */
  function PortText(port: PortField): (r: Option<string>)
    ensures r.Some? ==> port.PortNumber? && IsDigits(r.value) && DigitsValue(r.value) == port.n
  {
    if port.PortNumber? && port.n != 0 then
      NatToStringRoundTrip(port.n);
      Some(NatToString(port.n))
    else None
  }

  /** The password as the rebuilt userinfo carries it. */
  function PasswordText(password: Option<string>): Option<string>
  {
    if Truthy(password) then Some(password.value) else None
  }

  /** The userinfo of the rebuilt authority, without its '@'. */
  function Credentials(username: Option<string>, password: Option<string>): Option<string>
  {
    if Truthy(username) || Truthy(password) then Some(Text(username) + Optional(':', PasswordText(password))) else None
  }

  lemma UserInfoIsCredentials(username: Option<string>, password: Option<string>)
    ensures UserInfo(username, password) ==
            if Credentials(username, password).Some? then Credentials(username, password).value + "@" else ""
  {
    if Truthy(password) {
      assert ":" + password.value == [':'] + password.value;
    }
  }

  lemma PortSuffixIsPortText(port: PortField)
    requires !port.PortError?
    ensures PortSuffix(port) == Optional(':', PortText(port))
    ensures '@' !in PortSuffix(port)
    ensures PortText(port).Some? ==> ':' !in PortText(port).value
  {
    if PortText(port).Some? {
      var d := PortText(port).value;
      assert forall i :: 0 <= i < |d| ==> '0' <= d[i] <= '9';
      assert PortSuffix(port) == [':'] + d;
    }
  }

  /** Writing an authority out as `[ user [ ":" password ] "@" ] host [ ":" port ]`. */
  function JoinAuthority(a: Authority): string
  {
    (if a.username.Some? then a.username.value + Optional(':', a.password) + "@" else "")
    + a.host + Optional(':', a.port)
  }

  /** The authorities that read back as themselves: no ':' in the user, and no '@'
      or ':' in the host or the port; a password only with a user. */
  predicate Unambiguous(a: Authority)
  {
    (a.username.Some? ==> ':' !in a.username.value)
    && (a.username.None? ==> a.password.None?)
    && '@' !in a.host && ':' !in a.host
    && (a.port.Some? ==> '@' !in a.port.value && ':' !in a.port.value)
  }

  lemma AuthorityRoundTrip(a: Authority)
    requires Unambiguous(a)
    ensures SplitAuthority(JoinAuthority(a)) == a
  {
    var hostport := a.host + Optional(':', a.port);
    assert '@' !in hostport by {
      if a.port.Some? {
        assert hostport == a.host + [':'] + a.port.value;
      }
    }
    var info := if a.username.Some? then Some(a.username.value + Optional(':', a.password)) else None;
    assert JoinAuthority(a) == (if info.Some? then info.value + "@" else "") + hostport;
    UserInfoRoundTrip(info, hostport);
    if a.username.Some? {
      CredentialsRoundTrip(a.username.value, a.password);
    }
    HostPortRoundTrip(a.host, a.port);
  }

  /** The authority the rewrite means to build from the parsed parts. */
  function RewrittenAuthority(p: UrlParts): Authority
    requires PlainHost(p) && !p.port.PortError?
  {
    Authority(
      if Truthy(p.username) || Truthy(p.password) then Some(Text(p.username)) else None,
      PasswordText(p.password),
      p.hostname.value + LocalhostSuffix,
      PortText(p.port))
  }

  lemma NetlocIsJoined(p: UrlParts)
    requires PlainHost(p) && !p.port.PortError?
    ensures Netloc(p) == JoinAuthority(RewrittenAuthority(p))
  {
    PortSuffixIsPortText(p.port);
    UserInfoIsCredentials(p.username, p.password);
  }

  /** Reading the rebuilt authority back gives the non-empty username and password,
      the rewritten host and the non-zero port, provided the hostname is a name (no ':'
      of an IPv6 literal) and, as `urlparse` guarantees, the username holds no ':' and
      the host no '@'. */
  lemma {:induction false} NetlocRoundTrip(p: UrlParts)
    requires PlainHost(p) && !p.port.PortError?
    requires '@' !in p.hostname.value && ':' !in p.hostname.value
    requires p.username.Some? ==> ':' !in p.username.value
    ensures SplitAuthority(Netloc(p)) ==
            Authority(
              if Truthy(p.username) || Truthy(p.password) then Some(Text(p.username)) else None,
              PasswordText(p.password),
              p.hostname.value + LocalhostSuffix,
              PortText(p.port))
  {
    var a := RewrittenAuthority(p);
    assert '@' !in a.host && ':' !in a.host by {
      assert a.host == p.hostname.value + LocalhostSuffix;
    }
    PortSuffixIsPortText(p.port);
    NetlocIsJoined(p);
    AuthorityRoundTrip(a);
  }

  /** Python's `str()` of a non-`str` element, as its f-string renders it. */
  type Render = Value -> string

  /** The message one element of the list contributes, if it fails. */
  function ElementError(v: Value, schemes: seq<string>, allowPlainHostname: bool, lib: UrlLibrary, render: Render): (r: Option<string>)
    ensures !v.Str? ==> r == Some(render(v) + " must be a valid url")
    ensures v.Str? ==> (r.None? <==> UrlVerdict(v, schemes, allowPlainHostname, lib) == Valid)
    ensures v.Str? && r.Some? ==> r.value == v.s + " is invalid"
  {
    if !v.Str? then Some(render(v) + " must be a valid url")
    else if UrlVerdict(v, schemes, allowPlainHostname, lib).Invalid? then Some(v.s + " is invalid")
    else None
  }

  function Messages(o: Option<string>): seq<string>
  {
    if o.Some? then [o.value] else []
  }

  /** The messages of the failing elements, in list order. */
  function ElementErrors(items: seq<Value>, schemes: seq<string>, allowPlainHostname: bool, lib: UrlLibrary, render: Render): seq<string>
  {
    if items == [] then []
    else Messages(ElementError(items[0], schemes, allowPlainHostname, lib, render))
         + ElementErrors(items[1..], schemes, allowPlainHostname, lib, render)
  }

  /** The messages of a concatenation are those of the first part, then those of the second. */
  lemma {:induction false} ElementErrorsConcat(a: seq<Value>, b: seq<Value>, schemes: seq<string>, allowPlainHostname: bool, lib: UrlLibrary, render: Render)
    ensures ElementErrors(a + b, schemes, allowPlainHostname, lib, render)
            == ElementErrors(a, schemes, allowPlainHostname, lib, render) + ElementErrors(b, schemes, allowPlainHostname, lib, render)
  {
    if a != [] {
      assert (a + b)[1..] == a[1..] + b;
      ElementErrorsConcat(a[1..], b, schemes, allowPlainHostname, lib, render);
    } else {
      assert a + b == b;
    }
  }

  /** A list gives no message exactly when each of its elements passes. */
  lemma {:induction false} ElementErrorsEmptyIff(items: seq<Value>, schemes: seq<string>, allowPlainHostname: bool, lib: UrlLibrary, render: Render)
    ensures ElementErrors(items, schemes, allowPlainHostname, lib, render) == [] <==>
            forall i :: 0 <= i < |items| ==> items[i].Str? && UrlVerdict(items[i], schemes, allowPlainHostname, lib) == Valid
  {
    if items != [] {
      ElementErrorsEmptyIff(items[1..], schemes, allowPlainHostname, lib, render);
      if ElementErrors(items, schemes, allowPlainHostname, lib, render) == [] {
        forall i | 0 <= i < |items|
          ensures items[i].Str? && UrlVerdict(items[i], schemes, allowPlainHostname, lib) == Valid
        {
          if i > 0 {
            assert items[i] == items[1..][i - 1];
          }
        }
      } else if forall i :: 0 <= i < |items| ==> items[i].Str? && UrlVerdict(items[i], schemes, allowPlainHostname, lib) == Valid {
        assert items[0].Str? && UrlVerdict(items[0], schemes, allowPlainHostname, lib) == Valid;
        forall i | 0 <= i < |items| - 1
          ensures items[1..][i].Str? && UrlVerdict(items[1..][i], schemes, allowPlainHostname, lib) == Valid
        {
          assert items[1..][i] == items[i + 1];
        }
        assert false;
      }
    }
  }

  /** The outcome of `validate_url_list(urls, schemes, allow_plain_hostname)`. */
  function UrlListVerdict(urls: Value, schemes: seq<string>, allowPlainHostname: bool, lib: UrlLibrary, render: Render): (r: Outcome)
    ensures !urls.List? ==> r == Invalid(NotAList)
    ensures urls.List? && r.Invalid? ==>
              var errors := ElementErrors(urls.items, schemes, allowPlainHostname, lib, render);
              errors != [] && r.message == Join(", ", errors)
  {
    if !urls.List? then Invalid(NotAList)
    else
      var errors := ElementErrors(urls.items, schemes, allowPlainHostname, lib, render);
      if errors == [] then Valid else Invalid(Join(", ", errors))
  }

  /** A list passes exactly when it is a `list` whose every element is a `str` that
      `validate_url` accepts. */
  lemma UrlListValidIff(urls: Value, schemes: seq<string>, allowPlainHostname: bool, lib: UrlLibrary, render: Render)
    ensures UrlListVerdict(urls, schemes, allowPlainHostname, lib, render) == Valid <==>
            urls.List? &&
            forall i :: 0 <= i < |urls.items| ==>
              urls.items[i].Str? && UrlVerdict(urls.items[i], schemes, allowPlainHostname, lib) == Valid
  {
    if urls.List? {
      ElementErrorsEmptyIff(urls.items, schemes, allowPlainHostname, lib, render);
    }
  }

  /** What the loop of `validate_url_list` collects as written: the messages so far, or
      the `ValueError` of an element that `validate_url` lets escape, which ends the loop. */
  datatype Collected = Collected(errors: seq<string>) | Aborted(valueError: string)

  predicate EscapesAsWritten(v: Value, schemes: seq<string>, allowPlainHostname: bool, lib: UrlLibrary)
  {
    ValidateUrlAsWritten(v, schemes, allowPlainHostname, lib).Escaped?
  }

  function ErrorsAsWritten(items: seq<Value>, schemes: seq<string>, allowPlainHostname: bool, lib: UrlLibrary, render: Render): Collected
  {
    if items == [] then Collected([])
    else
      var v := items[0];
      var rest := ErrorsAsWritten(items[1..], schemes, allowPlainHostname, lib, render);
      if !v.Str? then
        if rest.Aborted? then rest else Collected([render(v) + " must be a valid url"] + rest.errors)
      else
        match ValidateUrlAsWritten(v, schemes, allowPlainHostname, lib)
        case Escaped(m) => Aborted(m)
        case Returned(Invalid(_)) =>
          if rest.Aborted? then rest else Collected([v.s + " is invalid"] + rest.errors)
        case Returned(Valid) => rest
  }

  /** `validate_url_list` as written: line 25 catches only `ValidationError`, so a
      `ValueError` escaping `validate_url` escapes the list validator too. */
  function UrlListAsWritten(urls: Value, schemes: seq<string>, allowPlainHostname: bool, lib: UrlLibrary, render: Render): (r: Raised)
    ensures !urls.List? ==> r == Returned(Invalid(NotAList))
  {
    if !urls.List? then Returned(Invalid(NotAList))
    else
      match ErrorsAsWritten(urls.items, schemes, allowPlainHostname, lib, render)
      case Aborted(m) => Escaped(m)
      case Collected(errors) => Returned(if errors == [] then Valid else Invalid(Join(", ", errors)))
  }

  /** As written, the loop is cut short exactly by the first element whose `ValueError`
      escapes; when none does, it collects the same messages as the corrected loop. */
  lemma {:induction false} ErrorsAsWrittenAgree(items: seq<Value>, schemes: seq<string>, allowPlainHostname: bool, lib: UrlLibrary, render: Render)
    ensures var c := ErrorsAsWritten(items, schemes, allowPlainHostname, lib, render);
            (c.Aborted? <==> exists i :: 0 <= i < |items| && EscapesAsWritten(items[i], schemes, allowPlainHostname, lib))
            && (c.Collected? ==> c.errors == ElementErrors(items, schemes, allowPlainHostname, lib, render))
            && (c.Aborted? ==>
                  exists i :: 0 <= i < |items| && EscapesAsWritten(items[i], schemes, allowPlainHostname, lib)
                    && c.valueError == ValidateUrlAsWritten(items[i], schemes, allowPlainHostname, lib).valueError
                    && forall j :: 0 <= j < i ==> !EscapesAsWritten(items[j], schemes, allowPlainHostname, lib))
  {
    if items != [] {
      var tail := items[1..];
      ErrorsAsWrittenAgree(tail, schemes, allowPlainHostname, lib, render);
      AsWrittenAgreesElsewhere(items[0], schemes, allowPlainHostname, lib);
      var c := ErrorsAsWritten(items, schemes, allowPlainHostname, lib, render);
      var rest := ErrorsAsWritten(tail, schemes, allowPlainHostname, lib, render);
      if EscapesAsWritten(items[0], schemes, allowPlainHostname, lib) {
        assert c == Aborted(ValidateUrlAsWritten(items[0], schemes, allowPlainHostname, lib).valueError);
      } else {
        assert c.Aborted? <==> rest.Aborted?;
        if rest.Aborted? {
          var i :| 0 <= i < |tail| && EscapesAsWritten(tail[i], schemes, allowPlainHostname, lib)
                   && rest.valueError == ValidateUrlAsWritten(tail[i], schemes, allowPlainHostname, lib).valueError
                   && forall j :: 0 <= j < i ==> !EscapesAsWritten(tail[j], schemes, allowPlainHostname, lib);
          assert tail[i] == items[i + 1];
          forall j | 0 <= j < i + 1
            ensures !EscapesAsWritten(items[j], schemes, allowPlainHostname, lib)
          {
            if j > 0 {
              assert items[j] == tail[j - 1];
            }
          }
        } else {
          forall i | 0 <= i < |items|
            ensures !EscapesAsWritten(items[i], schemes, allowPlainHostname, lib)
          {
            if i > 0 {
              assert items[i] == tail[i - 1];
            }
          }
        }
      }
    }
  }

  /** Apart from an escaping `ValueError`, the list validator as written returns the
      corrected outcome; it escapes exactly when some element's port raises. */
  lemma UrlListAsWrittenAgrees(urls: Value, schemes: seq<string>, allowPlainHostname: bool, lib: UrlLibrary, render: Render)
    ensures UrlListAsWritten(urls, schemes, allowPlainHostname, lib, render).Escaped? <==>
            urls.List? && exists i :: 0 <= i < |urls.items| && EscapesAsWritten(urls.items[i], schemes, allowPlainHostname, lib)
    ensures UrlListAsWritten(urls, schemes, allowPlainHostname, lib, render).Returned? ==>
            UrlListAsWritten(urls, schemes, allowPlainHostname, lib, render).outcome
            == UrlListVerdict(urls, schemes, allowPlainHostname, lib, render)
  {
    if urls.List? {
      ErrorsAsWrittenAgree(urls.items, schemes, allowPlainHostname, lib, render);
    }
  }

  /** `validate_url_list(["https://junk:abc"], allow_plain_hostname=True)`: as written the
      port's `ValueError` escapes the list validator; corrected, the element is reported. */
  lemma BadPortEscapesList(render: Render)
    ensures
      var lib := BadPortLibrary();
      var urls := List([Str("https://junk:abc")]);
      UrlListAsWritten(urls, DefaultSchemes, true, lib, render) == Escaped(PortCastError)
      && UrlListVerdict(urls, DefaultSchemes, true, lib, render) == Invalid("https://junk:abc is invalid")
  {
    var lib := BadPortLibrary();
    var items := [Str("https://junk:abc")];
    assert items[1..] == [];
    BadPortEscapes();
    assert "https://junk:abc" + " is invalid" == "https://junk:abc is invalid";
    assert ElementError(items[0], DefaultSchemes, true, lib, render) == Some("https://junk:abc is invalid");
    assert ElementErrors(items, DefaultSchemes, true, lib, render) == ["https://junk:abc is invalid"];
  }

  /** A valid and an invalid URL: only the invalid one is reported,
      by its text, whatever reason the validator gave. */
  lemma OneBadUrlInList(lib: UrlLibrary, render: Render, reason: string)
    requires lib.check("https://a.com", DefaultSchemes) == None
    requires lib.check("not a url", DefaultSchemes) == Some(reason)
    ensures UrlListVerdict(List([Str("https://a.com"), Str("not a url")]), DefaultSchemes, false, lib, render)
            == Invalid("not a url is invalid")
  {
    var items := [Str("https://a.com"), Str("not a url")];
    assert items[1..] == [Str("not a url")];
    assert items[1..][1..] == [];
    assert ElementError(items[0], DefaultSchemes, false, lib, render) == None;
    assert UrlVerdict(items[1], DefaultSchemes, false, lib) == Invalid(reason);
    assert "not a url" + " is invalid" == "not a url is invalid";
    assert ElementErrors(items[1..][1..], DefaultSchemes, false, lib, render) == [];
    assert ElementErrors(items[1..], DefaultSchemes, false, lib, render) == ["not a url is invalid"];
    assert ElementErrors(items, DefaultSchemes, false, lib, render) == ["not a url is invalid"];
  }

  /** `validate_url_list`: every element is scanned and each failure recorded before
      the single error is raised. */
  method ValidateUrlList(urls: Value, schemes: seq<string>, allowPlainHostname: bool, lib: UrlLibrary, render: Render)
    returns (r: Outcome)
    ensures r == UrlListVerdict(urls, schemes, allowPlainHostname, lib, render)
  {
    if !urls.List? {
      return Invalid(NotAList);
    }
    var items := urls.items;
    var errors: seq<string> := [];
    for i := 0 to |items|
      invariant errors == ElementErrors(items[..i], schemes, allowPlainHostname, lib, render)
    {
      var aUrl := items[i];
      ElementErrorsConcat(items[..i], [aUrl], schemes, allowPlainHostname, lib, render);
      assert items[..i + 1] == items[..i] + [aUrl];
      if !aUrl.Str? {
        errors := errors + [render(aUrl) + " must be a valid url"];
        continue;
      }
      var outcome := ValidateUrl(aUrl, schemes, allowPlainHostname, lib);
      if outcome.Invalid? {
        errors := errors + [aUrl.s + " is invalid"];
      }
    }
    assert items[..|items|] == items;
    if errors != [] {
      return Invalid(Join(", ", errors));
    }
    return Valid;
  }
}
