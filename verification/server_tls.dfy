/** The consistency check `main` makes on the three TLS options before it
    configures the HTTP server. An option counts as given when its value is
    truthy, so an empty string (or `null`) counts as absent. */
module ServerTls {
  import opened Wrappers
  import opened Json

  /** The two `parser.error` exits of the check. */
  datatype TlsError =
    | KeyCertMismatch     // exactly one of keyfile / certfile given
    | VerifyWithoutCert   // a client verify file without a certfile

  /** How the server is set up once the check passes. `Secure` carries the
      certificate and private key handed to the SSL module; the client verify
      location is handed to the SSL adapter in either case. */
  datatype TlsMode =
    | Plain(verify: Value)
    | Secure(certfile: Value, keyfile: Value, verify: Value)

  /** The accepted shapes: both key and cert, or none of the three options. */
  predicate Consistent(keyfile: Value, certfile: Value, verify: Value) {
    (Truthy(keyfile) && Truthy(certfile))
    || (!Truthy(keyfile) && !Truthy(certfile) && !Truthy(verify))
  }

  /** The check and the decision that follows it. Startup is rejected exactly
      when the options are inconsistent: a key/cert mismatch takes precedence,
      and a verify file without a certfile is the other reason. TLS is enabled
      exactly when both key and cert are given. */
  function CheckTls(keyfile: Value, certfile: Value, verify: Value): (r: Result<TlsMode, TlsError>)
    ensures r.Success? <==> Consistent(keyfile, certfile, verify)
    ensures r.Failure? ==>
      (r.error == KeyCertMismatch <==> Truthy(keyfile) != Truthy(certfile))
    ensures r.Failure? && r.error == VerifyWithoutCert ==>
      Truthy(verify) && !Truthy(keyfile) && !Truthy(certfile)
    ensures r.Success? ==> (r.value.Secure? <==> Truthy(keyfile) && Truthy(certfile))
    ensures r.Success? && r.value.Secure? ==>
      r.value.certfile == certfile && r.value.keyfile == keyfile
    ensures r.Success? ==> r.value.verify == verify
  {
    if Truthy(keyfile) != Truthy(certfile) then
      Failure(KeyCertMismatch)
    else if Truthy(verify) && !Truthy(certfile) then
      Failure(VerifyWithoutCert)
    else if Truthy(keyfile) && Truthy(certfile) then
      Success(Secure(certfile, keyfile, verify))
    else
      Success(Plain(verify))
  }

  /** A client verify file is accepted only together with key and cert. */
  lemma VerifyNeedsKeyAndCert(keyfile: Value, certfile: Value, verify: Value)
    requires Truthy(verify)
    ensures CheckTls(keyfile, certfile, verify).Success? <==> Truthy(keyfile) && Truthy(certfile)
    ensures CheckTls(keyfile, certfile, verify).Success? ==> CheckTls(keyfile, certfile, verify).value.Secure?
  {
  }
}
