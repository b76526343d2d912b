# Validation utilities of django-ansible-base, modelled in Dafny

`ansible_base/utils/validation.py` has three validators:

- `validate_url` checks one URL with Django's `URLValidator` for a list of allowed
  schemes. When `allow_plain_hostname` is set, a host without a dot (`https://junk`)
  is first rewritten to `<host>.localhost`. The rewrite keeps the `user[:password]@`
  prefix and a non-zero port.
- `validate_url_list` takes a Python `list`. It checks every element and reports all
  failing elements in one `ValidationError`, with their messages joined by `", "`.
- `validate_cert_with_key` finds out whether a PEM private key belongs to a PEM
  certificate: the key's public half must verify the certificate's own signature.
  It returns `None` when an input is missing, `False` when loading fails and `True`
  when they match. Otherwise it raises one of two `ValidationError`s.

Files:

- `values.dfy` (module `PyValues`): Python values (`str`, exactly `list`, anything else)
  and the truthiness of a `str`-or-`None`.
- `strings.dfy` (module `Strings`): `", ".join`, `str()` of a port number with its
  inverse, and first/last occurrence of a character.
- `url_validation.dfy` (module `UrlValidation`): both URL validators.
- `cert_validation.dfy` (module `CertValidation`): the certificate/key classifier.

The foreign code is passed in as function values, so every property holds for any
behaviour of that code:

- `UrlLibrary.parse` stands for `urlparse`. It yields the components, or the message
  of the `ValueError` it raises. The `port` component records what reading `.port`
  gives: no port, a number, or the `ValueError` that this accessor raises itself.
- `UrlLibrary.unsplit` stands for `urlunsplit`.
- `UrlLibrary.check` stands for `URLValidator(schemes)(url)`. It yields nothing when
  the URL is accepted and the error's message when it is not.
- `render` is Python's `str()` of a non-`str` list element.
- `loadKey` / `loadCert` stand for the PEM loaders, and `verify` for
  `public_key().verify(...)` with PKCS#1 v1.5 padding.

The spec functions (`UrlVerdict`, `UrlListVerdict`, `ValidateCertWithKey`) state what
each validator returns or raises. The methods `ValidateUrl` and `ValidateUrlList`
follow the source's step-by-step code and are proved equal to those functions.
`SplitAuthority` reads an authority back by the grammar of section 3.2 of RFC 3986,
`authority = [ userinfo "@" ] host [ ":" port ]`. `NetlocRoundTrip` proves that the
rewritten authority reads back as the non-empty username and password, the new host
and the non-zero port, for a hostname without ':' (see the IPv6 line under "## Left out").

Two facts of the code worth keeping in mind:

- Any verify error other than `InvalidSignature` raises "Unable to validate SP cert
  and key: ...", so `validate_cert_with_key` has five outcomes: `None`, `False`, two
  `ValidationError`s and `True`.
- With no userinfo, the rebuilt authority has no '@'.

## Model

| member | source | states |
|---|---|---|
| `Strings.NatToString` | ansible_base/utils/validation.py:52 | `str(port)` is a non-empty string of decimal digits that starts with '0' only for 0 |
| `Strings.NatToStringRoundTrip` | ansible_base/utils/validation.py:52 | reading the decimal text of a port back gives the same number |
| `UrlValidation.UserInfo` | ansible_base/utils/validation.py:42-48 | the userinfo prefix is empty exactly when username and password are both empty or absent, and otherwise ends in '@' |
| `UrlValidation.PortSuffix` | ansible_base/utils/validation.py:52 | the `:port` suffix is absent for no port and for port 0; otherwise it is ':' followed by the port's canonical decimal digits (no leading '0') |
| `UrlValidation.LocalHost` | ansible_base/utils/validation.py:51 | the new host is the hostname followed by ".localhost", so it contains a '.' |
| `UrlValidation.ValidatorInput` | ansible_base/utils/validation.py:34-55 | without `allow_plain_hostname` the URL reaches the validator unchanged; a parse error fails with the parser's message; a dotted or empty host leaves the URL unchanged; a plain host sends the `urlunsplit` of the rewritten parts; any change implies the flag is set, parsing succeeded and the host is plain |
| `UrlValidation.Check` | ansible_base/utils/validation.py:57-61 | the URL passes exactly when `URLValidator` accepts it; otherwise the `ValidationError` carries the validator's message |
| `UrlValidation.UrlVerdict` | ansible_base/utils/validation.py:31-61 | a non-`str` fails with "Must be a valid string" before any parsing; a `str` passes exactly when it reaches the validator and is accepted; every parse, port or validator error surfaces as a `ValidationError` with the underlying message |
| `UrlValidation.ValidateUrl` | ansible_base/utils/validation.py:31-61 | the step-by-step validator, with `user_info` and `url` reassigned as in the source, returns exactly `UrlVerdict` |
| `UrlValidation.ValidateUrlAsWritten` | ansible_base/utils/validation.py:31-61 | the code as written lets an exception other than `ValidationError` escape exactly when the flag is set, parsing succeeds, the host is plain and reading the port raises |
| `UrlValidation.AsWrittenAgreesElsewhere` | ansible_base/utils/validation.py:36-61 | outside that case the code as written returns the corrected outcome; in that case the corrected validator fails with the port error's message |
| `UrlValidation.BadPortEscapes` | ansible_base/utils/validation.py:50-52 | `https://junk:abc` with `allow_plain_hostname`: the port `ValueError` escapes as written, and the corrected validator reports it as a `ValidationError` |
| `UrlValidation.RewriteDropsParams` | ansible_base/utils/validation.py:37-55 | `urlparse`'s `;params` component plays no part in the rebuilt URL |
| `UrlValidation.NetlocRoundTrip` | ansible_base/utils/validation.py:42-53 | for a hostname without ':', reading the rebuilt netloc by the RFC 3986 authority grammar gives: a username only when username or password is non-empty, a password only when it is non-empty, the host with ".localhost" appended, and the port's digits only for a non-zero port |
| `UrlValidation.ElementError` | ansible_base/utils/validation.py:19-26 | a non-`str` element contributes "<v> must be a valid url" whatever `validate_url` would do; a `str` element contributes "<v> is invalid" exactly when `validate_url` fails, whatever the reason |
| `UrlValidation.ElementErrorsConcat` | ansible_base/utils/validation.py:18-26 | the messages of a list are those of its first part followed by those of the rest, so they keep the input order |
| `UrlValidation.ElementErrorsEmptyIff` | ansible_base/utils/validation.py:18-27 | no message is recorded exactly when every element is a `str` that `validate_url` accepts |
| `UrlValidation.UrlListVerdict` | ansible_base/utils/validation.py:15-28 | anything that is not a `list` fails with "Must be a list of urls"; a failing list's message is its recorded messages joined by ", ", and there is at least one of them |
| `UrlValidation.UrlListValidIff` | ansible_base/utils/validation.py:15-28 | the list validator succeeds exactly when its input is a `list` whose every element is a `str` that `validate_url` accepts |
| `UrlValidation.OneBadUrlInList` | ansible_base/utils/validation.py:18-28 | with one accepted and one rejected URL, the error names only the rejected one and drops the validator's reason |
| `UrlValidation.UrlListAsWritten` | ansible_base/utils/validation.py:15-28 | the list validator as written: anything that is not a `list` fails with "Must be a list of urls"; a `ValueError` escaping `validate_url` for an element escapes the whole validator |
| `UrlValidation.ErrorsAsWrittenAgree` | ansible_base/utils/validation.py:18-26 | as written, the loop is cut short exactly when some element's `ValueError` escapes, and then by the first such element; otherwise it collects the same messages as the corrected loop |
| `UrlValidation.UrlListAsWrittenAgrees` | ansible_base/utils/validation.py:15-28 | the list validator as written escapes exactly when some element escapes, and otherwise returns the corrected outcome |
| `UrlValidation.BadPortEscapesList` | ansible_base/utils/validation.py:23-26 | `["https://junk:abc"]` with `allow_plain_hostname`: the port `ValueError` escapes the list validator as written; corrected, the element is reported as "https://junk:abc is invalid" |
| `UrlValidation.AuthorityRoundTrip` | ansible_base/utils/validation.py:53 | an authority written as `[user[":"password]"@"]host[":"port]` reads back as itself when the user has no ':' and the host and port hold no '@' or ':' |
| `UrlValidation.ValidateUrlList` | ansible_base/utils/validation.py:15-28 | the loop scans every element and then returns exactly `UrlListVerdict` |
| `CertValidation.Loaded` | ansible_base/utils/validation.py:71-80 | both objects are available exactly when both inputs are set and both loaders succeed, and they are the key loaded from `private_key_string` and the certificate loaded from `public_cert_string` |
| `CertValidation.ValidateCertWithKey` | ansible_base/utils/validation.py:64-101 | the outcome is `Absent` exactly when an input is empty or `None`, and `LoadFailure` exactly when both are set but a loader fails. After both load, it is `Match`, `Mismatch` or `Unsupported` exactly when verify returns, raises `InvalidSignature` or raises anything else. The mismatch message is "The certificate and private key do not match". The unsupported message is "Unable to validate SP cert and key: " plus the error's message if it has one, else its class name |
| `CertValidation.MessagesDistinct` | ansible_base/utils/validation.py:91-98 | no "Unable to validate SP cert and key: ..." message equals the mismatch message |
| `CertValidation.AbsentBeforeLoading` | ansible_base/utils/validation.py:71-72 | a missing input gives `Absent` whatever the loaders and the verifier would do |

## Left out

- `urlparse`, `urlunsplit` and `URLValidator` are foreign library code. The model takes them as parameters, so their parsing, percent-encoding, regular expressions and scheme matching are not modelled.
- PEM and X.509 loading, `bytes(s, "UTF-8")` and RSA signature verification are foreign cryptography. They are parameters that succeed or fail. The model does not capture that the key is loaded before the certificate, because no outcome depends on it.
- Python's `str()` of a non-`str` list element is the `render` parameter, because its formatting is Python's object protocol.
- The inputs of `validate_cert_with_key` are `None` or a `str`. A truthy value of another type makes `bytes()` raise, which gives `False`; that case is not modelled.
- `gettext_lazy` translation and the Django and DRF exception classes are left out. Messages are plain strings, and a `ValidationError` is the `Invalid` outcome.
- The default arguments (`schemes=['https']`, `allow_plain_hostname=False`) are not modelled as defaults. Callers pass every argument, and `DefaultSchemes` names the default list.
- UrlValidation.ValidateUrl: it follows the corrected behaviour of the finding below. A `ValueError` from the port accessor becomes a `ValidationError`. `ValidateUrlAsWritten` models the code as written.
- UrlValidation.ElementError: it uses the corrected `validate_url`, so an element whose port `ValueError` escapes as written is reported as "<v> is invalid". `UrlListAsWritten` models the escape.
- UrlValidation.UrlListVerdict: it inherits the corrected `validate_url` (see the second finding below). The source lets the port `ValueError` escape instead.
- UrlValidation.UrlListValidIff: it is stated about the corrected list validator.
- UrlValidation.ValidateUrlList: it calls the corrected `ValidateUrl` and so returns the corrected outcome where the source would let a `ValueError` escape.
- UrlValidation.NetlocRoundTrip: it requires a hostname without ':'. An IPv6 literal such as `[::1]` has no dot, so it is rewritten without its brackets (`::1.localhost`), and that authority does not read back as RFC 3986 describes.

## Findings

| source | as written | input that shows it | evidently intended | confidence | as-written member | corrected member |
|---|---|---|---|---|---|---|
| ansible_base/utils/validation.py:52 | `url_parts.port` is read outside the `try` of lines 36-39. The `ValueError` it raises for a non-numeric or out-of-range port escapes `validate_url` as a raw `ValueError`. `validate_url_list` passes it on too, because line 25 catches only `ValidationError` | `validate_url("https://junk:abc", allow_plain_hostname=True)` | the port error becomes a `ValidationError` with the error's text, as a parse error does at lines 38-39 | not executed; medium (relies on `urlparse` reading the port lazily when `.port` is accessed) | `UrlValidation.ValidateUrlAsWritten` | `UrlValidation.UrlVerdict` |
| ansible_base/utils/validation.py:25 | `validate_url_list` catches only `ValidationError`. The port `ValueError` that escapes `validate_url` therefore escapes the list validator and ends the scan | `validate_url_list(["https://junk:abc"], allow_plain_hostname=True)` | the element is recorded as "https://junk:abc is invalid" and the scan goes on | not executed; medium (follows from the row above) | `UrlValidation.UrlListAsWritten` | `UrlValidation.UrlListVerdict` |
