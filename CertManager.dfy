/**
 * The certificate-building part of `cert_manager.go`: `Prepare` turns a
 * certificate request and a license into the certificate template the product
 * signs, under the fixed Lithium issuer.
 */
module CertManager {
  import opened Wrappers
  import opened Text
  import opened X509
  import opened LicenseData

  /** `CertManager`: the folder of the local certificates and the product they belong to. */
  datatype CertManager = CertManager(path: string, product: Product)

  const LicensingUnit := "Lithium Licensing"
  const MaxPathLen := 128

  /** `getIssuer`: the issuer every prepared certificate names. */
  const Issuer := Name("Sierra Softworks Lithium License Protocol", "", ["Sierra Softworks"], [LicensingUnit],
                       ["Western Cape"], ["South Africa"])

  /** `fmt.Sprintf("%s (%s)", product.Name, product.ID)`. */
  function CommonName(p: Product): string {
    p.name + " (" + p.id + ")"
  }

  /** The key usages of a prepared certificate: signing and data encipherment, plus certificate signing for a CA. */
  function PreparedKeyUsage(isCA: bool): KeyUsage {
    if isCA then KeyUsageDigitalSignature | KeyUsageDataEncipherment | KeyUsageCertSign
    else KeyUsageDigitalSignature | KeyUsageDataEncipherment
  }

  /**
   * `Prepare`: the certificate keeps the request's subject, names and key, takes its
   * validity from the license metadata, and is a CA exactly when the license has a
   * non-empty pack of child licenses.
   */
  method Prepare(m: CertManager, csr: CertificateRequest, license: Data) returns (cert: Certificate)
    requires license.meta.Some?
    ensures cert.isCA <==> |license.meta.value.pack| > 0
    ensures cert.keyUsage == PreparedKeyUsage(cert.isCA)
    ensures cert.subject == csr.subject.(commonName := CommonName(m.product), serialNumber := license.meta.value.id,
                                         organization := [m.product.organization], organizationalUnit := [LicensingUnit])
    ensures cert.issuer == Issuer && cert.basicConstraintsValid && cert.maxPathLen == MaxPathLen
    ensures cert.notBefore == license.meta.value.activatesOn && cert.notAfter == license.meta.value.expiresOn
    ensures cert.dnsNames == csr.dnsNames && cert.publicKey == csr.publicKey
    ensures cert.publicKeyAlgorithm == csr.publicKeyAlgorithm && cert.raw == []
  {
    cert := Certificate([], csr.subject, Issuer, csr.dnsNames, true, MaxPathLen, false,
                        license.meta.value.activatesOn, license.meta.value.expiresOn,
                        KeyUsageDigitalSignature | KeyUsageDataEncipherment, csr.publicKey, csr.publicKeyAlgorithm);
    if |license.meta.value.pack| > 0 {
      cert := cert.(keyUsage := cert.keyUsage | KeyUsageCertSign, isCA := true);
    }
    cert := cert.(subject := cert.subject.(commonName := CommonName(m.product)));
    cert := cert.(subject := cert.subject.(serialNumber := license.meta.value.id));
    cert := cert.(subject := cert.subject.(organization := [m.product.organization]));
    cert := cert.(subject := cert.subject.(organizationalUnit := [LicensingUnit]));
  }

  /** A common name reads the product name, a space, and the product ID in parentheses. */
  lemma {:induction false} CommonNameShape(p: Product)
    ensures var cn := CommonName(p); var k := |p.name|;
      && |cn| == k + |p.id| + 3
      && cn[..k] == p.name && cn[k..k + 2] == " (" && cn[k + 2..|cn| - 1] == p.id && cn[|cn| - 1] == ')'
  {
  }

  /** Certificate signing is granted exactly to a CA; signing and data encipherment always are. */
  lemma {:induction false} KeyUsageOfPrepared(isCA: bool)
    ensures PreparedKeyUsage(isCA) & KeyUsageCertSign != 0 <==> isCA
    ensures PreparedKeyUsage(isCA) & KeyUsageDigitalSignature != 0
    ensures PreparedKeyUsage(isCA) & KeyUsageDataEncipherment != 0
    ensures PreparedKeyUsage(isCA) & !(KeyUsageDigitalSignature | KeyUsageDataEncipherment | KeyUsageCertSign) == 0
  {
  }

  /**
   * `getCertificateFilePath`: `filepath.Join(m.Path, file)` with `/` as the
   * separator; an empty element is dropped.
   */
  function CertificateFilePath(m: CertManager, file: string): (p: string)
    ensures m.path != "" && file != "" ==> |p| == |m.path| + 1 + |file|
  {
    if m.path == "" then file
    else if file == "" then m.path
    else m.path + "/" + file
  }

  /** The file's path is the folder's path components followed by the file name. */
  lemma {:induction false} FilePathComponents(folder: seq<string>, product: Product, file: string)
    requires |folder| >= 1 && JoinWith(folder, '/') != ""
    requires forall i :: 0 <= i < |folder| ==> '/' !in folder[i]
    requires '/' !in file && file != ""
    ensures Split(CertificateFilePath(CertManager(JoinWith(folder, '/'), product), file), '/') == folder + [file]
  {
    JoinWithSnoc(folder, file, '/');
    assert forall i :: 0 <= i < |folder + [file]| ==> '/' !in (folder + [file])[i];
    SplitJoinWith(folder + [file], '/');
  }
}
