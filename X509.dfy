/**
 * The parts of Go's `crypto/x509` and `crypto/x509/pkix` values the license code
 * builds and compares. Parsing, signing and signature checks stay outside the
 * model; they are supplied to the operations that use them.
 */
module X509 {
  import opened Wrappers

  newtype byte = x: int | 0 <= x < 256

  type Bytes = seq<byte>

  /** `x509.PublicKeyAlgorithm`. */
  datatype PublicKeyAlgorithm = UnknownPublicKeyAlgorithm | RSA | DSA | ECDSA | Ed25519

  /** `x509.KeyUsage`, a bit set. */
  type KeyUsage = bv32

  const KeyUsageDigitalSignature: KeyUsage := 1
  const KeyUsageDataEncipherment: KeyUsage := 8
  const KeyUsageCertSign: KeyUsage := 32

  /** `pkix.Name`, restricted to the attributes the license code sets. */
  datatype Name = Name(commonName: string, serialNumber: string, organization: seq<string>,
                       organizationalUnit: seq<string>, province: seq<string>, country: seq<string>)

  /**
   * `x509.Certificate`; `raw` is the DER encoding (empty for a template that has
   * not been signed yet) and `publicKey` stands for the key value.
   */
  datatype Certificate = Certificate(raw: Bytes, subject: Name, issuer: Name, dnsNames: seq<string>,
                                     basicConstraintsValid: bool, maxPathLen: int, isCA: bool,
                                     notBefore: int, notAfter: int, keyUsage: KeyUsage,
                                     publicKey: Bytes, publicKeyAlgorithm: PublicKeyAlgorithm)

  /** `x509.CertificateRequest`, restricted to the fields a certificate is prepared from. */
  datatype CertificateRequest = CertificateRequest(subject: Name, dnsNames: seq<string>, publicKey: Bytes,
                                                   publicKeyAlgorithm: PublicKeyAlgorithm)

  /** `(*Certificate).Equal`: a nil other certificate never equals one; otherwise the raw encodings are compared. */
  predicate Equal(c: Certificate, other: Option<Certificate>) {
    other.Some? && c.raw == other.value.raw
  }
}
