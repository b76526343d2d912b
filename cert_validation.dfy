/** `validate_cert_with_key`: does a PEM private key belong to a PEM certificate?
    Loading and the RSASSA-PKCS1-v1_5 check of the certificate's signature over its
    `tbsCertificate` are foreign; what is modelled is how their results are classified. */
module CertValidation {
  import opened PyValues

  const MismatchMessage := "The certificate and private key do not match"
  const UnableMessage := "Unable to validate SP cert and key"

  /** What `public_key().verify(...)` does: returns, raises `InvalidSignature`, or
      raises another exception, which may carry a `message` attribute. */
  datatype VerifyOutcome = Verified | InvalidSignature | VerifyError(message: Option<string>, className: string)

  /** The five results: `None`, `False`, the two `ValidationError`s, and `True`. */
  datatype CertOutcome = Absent | LoadFailure | Mismatch(message: string) | Unsupported(message: string) | Match

  /** The key and the certificate, when both inputs are set and both load. */
  function Loaded<K, C>(publicCert: Option<string>, privateKey: Option<string>,
                        loadKey: string -> Option<K>, loadCert: string -> Option<C>): (r: Option<(K, C)>)
    ensures r.Some? <==> Truthy(privateKey) && Truthy(publicCert)
                         && loadKey(privateKey.value).Some? && loadCert(publicCert.value).Some?
    ensures r.Some? ==> r.value == (loadKey(privateKey.value).value, loadCert(publicCert.value).value)
  {
    if Truthy(privateKey) && Truthy(publicCert) then
      match (loadKey(privateKey.value), loadCert(publicCert.value))
      case (Some(k), Some(c)) => Some((k, c))
      case _ => None
    else None
  }

  /** The text after `UnableMessage`: the exception's message if it has one, else its class name. */
  function ErrorDetail(e: VerifyOutcome): string
    requires e.VerifyError?
  {
    if e.message.Some? then e.message.value else e.className
  }

  function ValidateCertWithKey<K, C>(publicCert: Option<string>, privateKey: Option<string>,
                                     loadKey: string -> Option<K>, loadCert: string -> Option<C>,
                                     verify: (K, C) -> VerifyOutcome): (r: CertOutcome)
    ensures r.Absent? <==> !Truthy(privateKey) || !Truthy(publicCert)
    ensures r.LoadFailure? <==>
              Truthy(privateKey) && Truthy(publicCert) && Loaded(publicCert, privateKey, loadKey, loadCert).None?
    ensures r.Match? <==>
              var pair := Loaded(publicCert, privateKey, loadKey, loadCert);
              pair.Some? && verify(pair.value.0, pair.value.1).Verified?
    ensures r.Mismatch? <==>
              var pair := Loaded(publicCert, privateKey, loadKey, loadCert);
              pair.Some? && verify(pair.value.0, pair.value.1).InvalidSignature?
    ensures r.Unsupported? <==>
              var pair := Loaded(publicCert, privateKey, loadKey, loadCert);
              pair.Some? && verify(pair.value.0, pair.value.1).VerifyError?
    ensures r.Mismatch? ==> r.message == MismatchMessage
    ensures r.Unsupported? ==>
              var pair := Loaded(publicCert, privateKey, loadKey, loadCert);
              pair.Some? && r.message == UnableMessage + ": " + ErrorDetail(verify(pair.value.0, pair.value.1))
  {
    if !Truthy(privateKey) || !Truthy(publicCert) then Absent
    else
      match Loaded(publicCert, privateKey, loadKey, loadCert)
      case None => LoadFailure
      case Some((key, cert)) =>
        match verify(key, cert)
        case Verified => Match
        case InvalidSignature => Mismatch(MismatchMessage)
        case VerifyError(message, className) =>
          var error := UnableMessage;
          if message.Some? then Unsupported(error + ": " + message.value)
          else Unsupported(error + ": " + className)
  }

  /** A caller can tell the two raised errors apart by their text: no detail makes the
      "unable to validate" message read as the mismatch message. */
  lemma {:induction false} MessagesDistinct(detail: string)
    ensures UnableMessage + ": " + detail != MismatchMessage
  {
    assert (UnableMessage + ": " + detail)[0] == 'U';
    assert MismatchMessage[0] == 'T';
  }

  /** When either input is missing, nothing is loaded or verified: the result is the
      same whatever the loaders and the verifier would do. */
  lemma AbsentBeforeLoading<K, C>(publicCert: Option<string>, privateKey: Option<string>,
                                  loadKey: string -> Option<K>, loadCert: string -> Option<C>,
                                  verify: (K, C) -> VerifyOutcome,
                                  loadKey': string -> Option<K>, loadCert': string -> Option<C>,
                                  verify': (K, C) -> VerifyOutcome)
    requires !Truthy(privateKey) || !Truthy(publicCert)
    ensures ValidateCertWithKey(publicCert, privateKey, loadKey, loadCert, verify)
            == ValidateCertWithKey(publicCert, privateKey, loadKey', loadCert', verify')
            == Absent
  {
  }
}
