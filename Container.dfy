/**
 * The license container of `container.go`: an encrypted payload, its signature
 * and the certificate chain that issued it, stored as an ordered sequence of
 * typed PEM blocks. A block is kept as its type, headers and bytes: the model
 * works on the sequence of blocks the PEM encoder writes or `pem.Decode` finds,
 * and the PEM text framing itself is not modelled. Base64, certificate parsing,
 * hashing and RSA-PSS are supplied as functions.
 */
module LicenseContainer {
  import opened Wrappers
  import opened Text
  import opened X509

  const LicenseKeyType := "LITHIUM LICENSE KEY"
  const LicenseType := "LITHIUM LICENSE"
  const SignatureType := "LITHIUM SIGNATURE"
  const CertificateType := "LITHIUM CERTIFICATE"

  const NoSignature := "no signature has been provided for the license data"
  const NoSignatureAlgorithm := "no signature algorithm has been specified"
  const NoSignatureBlock := "no license signature block was present in the container"
  const NoCertificates := "expected at least one certificate to be present"
  const RootMismatch := "expected first certificate in list to match known root"
  const SignatureMismatch := "signature did not match the expected signed value"
  const UnsupportedKey := "unsupported public key algorithm for certificate, required RSA"
  /** The run-time panic of reading a nil `Signature`. */
  const NilSignature := "runtime error: invalid memory address or nil pointer dereference"

  /** `EncryptedPayload`: the protected key, the encrypted license and how it was encrypted. */
  datatype EncryptedPayload = EncryptedPayload(key: Bytes, data: Bytes, algorithm: string, iv: Bytes)

  datatype Signature = Signature(data: Bytes, algorithm: string)

  datatype Container = Container(payload: EncryptedPayload, signature: Option<Signature>, certificates: seq<Certificate>)

  /** `pem.Block`. */
  datatype Block = Block(kind: string, headers: map<string, string>, bytes: Bytes)

  /** The `crypto.Hash` values `hashByName` can return. */
  datatype Hash = SHA1 | SHA256 | SHA512

  /** Standard base64 and `x509.ParseCertificate`. */
  datatype Codecs = Codecs(encodeBase64: Bytes -> string, decodeBase64: string -> Result<Bytes, string>,
                           parseCertificate: Bytes -> Result<Certificate, string>)

  /**
   * `CheckSignatureFrom` (an error or none), `computeHash`, `rsa.SignPSS` with the
   * signer's key and `rsa.VerifyPSS` against a certificate's key (true when it
   * reports no error).
   */
  datatype Crypto = Crypto(checkSignatureFrom: (Certificate, Certificate) -> Option<string>,
                           computeHash: (Bytes, Hash) -> Result<Bytes, string>,
                           signPSS: (Hash, Bytes) -> Result<Bytes, string>,
                           verifyPSS: (Certificate, Hash, Bytes, Bytes) -> bool)

  /** Base64 decoding undoes base64 encoding. */
  ghost predicate Base64RoundTrips(codecs: Codecs) {
    forall b: Bytes :: codecs.decodeBase64(codecs.encodeBase64(b)) == Success(b)
  }

  // ----- hashByName and Sign -----

  /** The lower-case name `hashByName` accepts for each hash. */
  function HashName(h: Hash): string {
    match h
    case SHA1 => "sha1"
    case SHA256 => "sha256"
    case SHA512 => "sha512"
  }

  /** `hashByName`: the hash whose name is `algorithm` ignoring case; any other name is an error. */
  function HashByName(algorithm: string): (r: Result<Hash, string>)
    ensures forall h :: r == Success(h) <==> LowerAscii(algorithm) == HashName(h)
    ensures r.Failure? ==> r.error == "unsupported hash function '" + algorithm + "'"
  {
    var name := LowerAscii(algorithm);
    if name == "sha1" then Success(SHA1)
    else if name == "sha256" then Success(SHA256)
    else if name == "sha512" then Success(SHA512)
    else Failure("unsupported hash function '" + algorithm + "'")
  }

  /**
   * `(*Container).Sign`, returning the updated container: the payload data is
   * hashed with the named hash and signed, and the signature is recorded with the
   * algorithm name in lower case. An unknown hash name, a hashing error or a
   * signing error is returned as it is, and nothing is recorded.
   */
  function Sign(c: Container, algorithm: string, crypto: Crypto): (r: Result<Container, string>)
    ensures HashByName(algorithm).Failure? ==> r == Failure(HashByName(algorithm).error)
    ensures HashByName(algorithm).Success? ==>
              var hash := HashByName(algorithm).value;
              var hashed := crypto.computeHash(c.payload.data, hash);
              (hashed.Failure? ==> r == Failure(hashed.error)) &&
              (hashed.Success? ==>
                 var signed := crypto.signPSS(hash, hashed.value);
                 (signed.Failure? ==> r == Failure(signed.error)) &&
                 (signed.Success? ==> r.Success? && r.value.signature.Some? && r.value.signature.value.data == signed.value))
    ensures r.Success? ==> r.value.payload == c.payload && r.value.certificates == c.certificates
    ensures r.Success? ==> r.value.signature.Some? && r.value.signature.value.algorithm == LowerAscii(algorithm)
  {
    var hash :- HashByName(algorithm);
    var hashed :- crypto.computeHash(c.payload.data, hash);
    var signature :- crypto.signPSS(hash, hashed);
    Success(c.(signature := Some(Signature(signature, LowerAscii(algorithm)))))
  }

  /** The recorded algorithm names the hash the data was signed with, so verification hashes alike. */
  lemma {:induction false} SignRecordsUsableAlgorithm(c: Container, algorithm: string, crypto: Crypto)
    requires Sign(c, algorithm, crypto).Success?
    ensures HashByName(Sign(c, algorithm, crypto).value.signature.value.algorithm) == HashByName(algorithm)
  {
    LowerAsciiIdempotent(algorithm);
  }

  // ----- EncodeContainer -----

  function KeyBlock(p: EncryptedPayload): Block {
    Block(LicenseKeyType, map[], p.key)
  }

  function LicenseBlock(p: EncryptedPayload, codecs: Codecs): Block {
    Block(LicenseType, map["algorithm" := p.algorithm, "iv" := codecs.encodeBase64(p.iv)], p.data)
  }

  function SignatureBlock(s: Signature): Block {
    Block(SignatureType, map["algorithm" := s.algorithm], s.data)
  }

  function CertificateBlock(cert: Certificate): Block {
    Block(CertificateType, map[], cert.raw)
  }

  /** One certificate block per certificate, in list order. */
  function CertificateBlocks(certs: seq<Certificate>): (bs: seq<Block>)
    ensures |bs| == |certs|
  {
    if certs == [] then [] else [CertificateBlock(certs[0])] + CertificateBlocks(certs[1..])
  }

  lemma {:induction false} CertificateBlocksSnoc(certs: seq<Certificate>, cert: Certificate)
    ensures CertificateBlocks(certs + [cert]) == CertificateBlocks(certs) + [CertificateBlock(cert)]
  {
    if certs != [] {
      assert (certs + [cert])[1..] == certs[1..] + [cert];
      CertificateBlocksSnoc(certs[1..], cert);
    } else {
      assert certs + [cert] == [cert];
    }
  }

  /** What `EncodeContainer` produces: the blocks in order, or the error for a missing signature or algorithm. */
  function Encoding(c: Container, codecs: Codecs): Result<seq<Block>, string> {
    if c.signature.None? then Failure(NoSignature)
    else if c.signature.value.algorithm == "" then Failure(NoSignatureAlgorithm)
    else Success([KeyBlock(c.payload), LicenseBlock(c.payload, codecs), SignatureBlock(c.signature.value)]
                 + CertificateBlocks(c.certificates))
  }

  /** `EncodeContainer`. */
  method EncodeContainer(c: Container, codecs: Codecs) returns (r: Result<seq<Block>, string>)
    ensures r == Encoding(c, codecs)
  {
    var d: seq<Block> := [];
    d := d + [KeyBlock(c.payload)];
    d := d + [LicenseBlock(c.payload, codecs)];
    if c.signature.None? {
      return Failure(NoSignature);
    }
    if c.signature.value.algorithm == "" {
      return Failure(NoSignatureAlgorithm);
    }
    d := d + [SignatureBlock(c.signature.value)];
    var head := d;
    assert head == [KeyBlock(c.payload), LicenseBlock(c.payload, codecs), SignatureBlock(c.signature.value)];
    var i := 0;
    while i < |c.certificates|
      invariant i <= |c.certificates|
      invariant d == head + CertificateBlocks(c.certificates[..i])
    {
      CertificateBlocksSnoc(c.certificates[..i], c.certificates[i]);
      assert c.certificates[..i + 1] == c.certificates[..i] + [c.certificates[i]];
      d := d + [CertificateBlock(c.certificates[i])];
      i := i + 1;
    }
    assert c.certificates[..i] == c.certificates;
    return Success(d);
  }

  /** Encoding fails exactly when there is no signature or its algorithm is empty; it then yields no blocks. */
  lemma {:induction false} EncodingNeedsSignature(c: Container, codecs: Codecs)
    ensures Encoding(c, codecs).Failure? <==> c.signature.None? || c.signature.value.algorithm == ""
    ensures Encoding(c, codecs).Success? ==>
      var bs := Encoding(c, codecs).value;
      |bs| == 3 + |c.certificates|
      && bs[0].kind == LicenseKeyType && bs[1].kind == LicenseType && bs[2].kind == SignatureType
      && forall i :: 3 <= i < |bs| ==> bs[i] == CertificateBlock(c.certificates[i - 3])
  {
    if Encoding(c, codecs).Success? {
      CertificateBlocksAt(c.certificates);
    }
  }

  lemma {:induction false} CertificateBlocksAt(certs: seq<Certificate>)
    ensures forall i :: 0 <= i < |certs| ==> CertificateBlocks(certs)[i] == CertificateBlock(certs[i])
  {
    if certs != [] {
      CertificateBlocksAt(certs[1..]);
    }
  }

  /** A signed container always encodes: `Sign` never records an empty algorithm. */
  lemma {:induction false} SignedContainerEncodes(c: Container, algorithm: string, crypto: Crypto, codecs: Codecs)
    requires Sign(c, algorithm, crypto).Success?
    ensures Encoding(Sign(c, algorithm, crypto).value, codecs).Success?
  {
    var h := HashByName(algorithm).value;
    assert |HashName(h)| > 0;
  }

  // ----- ParseContainer -----

  /** `block.Headers[key]`, or the value given for a missing header. */
  function HeaderOr(b: Block, key: string, missing: string): string {
    if key in b.headers then b.headers[key] else missing
  }

  /** The empty container `ParseContainer` starts from. */
  const Empty := Container(EncryptedPayload([], [], "", []), None, [])

  /**
   * One round of the `ParseContainer` switch: a block of a known type overwrites
   * its fields (a certificate is appended); any other type changes nothing.
   */
  function ApplyBlock(c: Container, b: Block, codecs: Codecs): Result<Container, string> {
    if b.kind == LicenseKeyType then Success(c.(payload := c.payload.(key := b.bytes)))
    else if b.kind == LicenseType then
      match codecs.decodeBase64(HeaderOr(b, "iv", ""))
      case Failure(e) => Failure(e)
      case Success(iv) => Success(c.(payload := c.payload.(data := b.bytes, algorithm := HeaderOr(b, "algorithm", ""), iv := iv)))
    else if b.kind == SignatureType then Success(c.(signature := Some(Signature(b.bytes, HeaderOr(b, "algorithm", "sha256")))))
    else if b.kind == CertificateType then
      match codecs.parseCertificate(b.bytes)
      case Failure(e) => Failure(e)
      case Success(cert) => Success(c.(certificates := c.certificates + [cert]))
    else Success(c)
  }

  /** The blocks applied in order to `c`; the first failing block decides the error. */
  function Scan(blocks: seq<Block>, c: Container, codecs: Codecs): Result<Container, string> {
    if blocks == [] then Success(c)
    else match ApplyBlock(c, blocks[0], codecs)
      case Failure(e) => Failure(e)
      case Success(c') => Scan(blocks[1..], c', codecs)
  }

  /** What `ParseContainer` produces: the scanned container, which must hold a signature. */
  function Parsing(blocks: seq<Block>, codecs: Codecs): Result<Container, string> {
    match Scan(blocks, Empty, codecs)
    case Failure(e) => Failure(e)
    case Success(c) => if c.signature.None? then Failure(NoSignatureBlock) else Success(c)
  }

  /** `ParseContainer`, on the blocks `pem.Decode` finds one after another. */
  method ParseContainer(blocks: seq<Block>, codecs: Codecs) returns (r: Result<Container, string>)
    ensures r == Parsing(blocks, codecs)
  {
    var c := Empty;
    var d := blocks;
    while d != []
      invariant Scan(d, c, codecs) == Scan(blocks, Empty, codecs)
      decreases |d|
    {
      var block := d[0];
      d := d[1..];
      if block.kind == LicenseKeyType {
        c := c.(payload := c.payload.(key := block.bytes));
      } else if block.kind == LicenseType {
        c := c.(payload := c.payload.(data := block.bytes, algorithm := HeaderOr(block, "algorithm", "")));
        var iv := codecs.decodeBase64(HeaderOr(block, "iv", ""));
        if iv.Failure? {
          return Failure(iv.error);
        }
        c := c.(payload := c.payload.(iv := iv.value));
      } else if block.kind == SignatureType {
        var algorithm := "sha256";
        if "algorithm" in block.headers {
          algorithm := block.headers["algorithm"];
        }
        c := c.(signature := Some(Signature(block.bytes, algorithm)));
      } else if block.kind == CertificateType {
        var cert := codecs.parseCertificate(block.bytes);
        if cert.Failure? {
          return Failure(cert.error);
        }
        c := c.(certificates := c.certificates + [cert.value]);
      }
    }
    if c.signature.None? {
      return Failure(NoSignatureBlock);
    }
    return Success(c);
  }

  /** Scanning a concatenation scans the first part, then the second from where it left off. */
  lemma {:induction false} ScanAppend(a: seq<Block>, b: seq<Block>, c: Container, codecs: Codecs)
    ensures Scan(a + b, c, codecs)
      == match Scan(a, c, codecs) case Failure(e) => Failure(e) case Success(c') => Scan(b, c', codecs)
  {
    if a == [] {
      assert a + b == b;
    } else {
      assert (a + b)[0] == a[0] && (a + b)[1..] == a[1..] + b;
      match ApplyBlock(c, a[0], codecs)
      case Failure(e) =>
      case Success(c') => ScanAppend(a[1..], b, c', codecs);
    }
  }

  /** Certificate blocks whose certificates parse back append those certificates in order. */
  lemma {:induction false} ScanCertificateBlocks(certs: seq<Certificate>, c: Container, codecs: Codecs)
    requires forall i :: 0 <= i < |certs| ==> codecs.parseCertificate(certs[i].raw) == Success(certs[i])
    ensures Scan(CertificateBlocks(certs), c, codecs) == Success(c.(certificates := c.certificates + certs))
    decreases |certs|
  {
    if certs != [] {
      var c' := c.(certificates := c.certificates + [certs[0]]);
      var bs := CertificateBlocks(certs);
      assert bs[0] == CertificateBlock(certs[0]) && bs[1..] == CertificateBlocks(certs[1..]);
      ScanCertificateBlocks(certs[1..], c', codecs);
      assert c.certificates + [certs[0]] + certs[1..] == c.certificates + certs;
    } else {
      assert c.certificates + certs == c.certificates;
    }
  }

  /**
   * With base64 and certificate parsing undoing their encodings, parsing an
   * encoded container gives the container back.
   */
  lemma {:induction false} ParseEncoded(c: Container, codecs: Codecs)
    requires Base64RoundTrips(codecs)
    requires forall i :: 0 <= i < |c.certificates| ==> codecs.parseCertificate(c.certificates[i].raw) == Success(c.certificates[i])
    requires Encoding(c, codecs).Success?
    ensures Parsing(Encoding(c, codecs).value, codecs) == Success(c)
  {
    var s := c.signature.value;
    var tail := [SignatureBlock(s)];
    var mid := [LicenseBlock(c.payload, codecs)] + tail;
    var head := [KeyBlock(c.payload)] + mid;
    assert head == [KeyBlock(c.payload), LicenseBlock(c.payload, codecs), SignatureBlock(s)];
    ScanAppend(head, CertificateBlocks(c.certificates), Empty, codecs);
    var c1 := Empty.(payload := Empty.payload.(key := c.payload.key));
    var c2 := c1.(payload := c.payload);
    var c3 := c2.(signature := Some(s));
    assert tail[1..] == [];
    assert Scan(tail, c2, codecs) == Success(c3);
    assert mid[1..] == tail;
    assert Scan(mid, c1, codecs) == Success(c3);
    assert head[1..] == mid;
    assert Scan(head, Empty, codecs) == Success(c3);
    ScanCertificateBlocks(c.certificates, c3, codecs);
    assert c3.certificates + c.certificates == c.certificates;
    assert c3.(certificates := c.certificates) == c;
  }

  /** The certificate bytes of the certificate blocks, in file order. */
  function CertificateBytes(blocks: seq<Block>): seq<Bytes> {
    if blocks == [] then []
    else (if blocks[0].kind == CertificateType then [blocks[0].bytes] else []) + CertificateBytes(blocks[1..])
  }

  /** A successful scan appends one parsed certificate per certificate block, in file order. */
  lemma {:induction false} ScanCertificatesInOrder(blocks: seq<Block>, c: Container, codecs: Codecs)
    requires Scan(blocks, c, codecs).Success?
    ensures var r := Scan(blocks, c, codecs).value; var raws := CertificateBytes(blocks);
      |r.certificates| == |c.certificates| + |raws|
      && r.certificates[..|c.certificates|] == c.certificates
      && forall j :: 0 <= j < |raws| ==> codecs.parseCertificate(raws[j]) == Success(r.certificates[|c.certificates| + j])
  {
    if blocks != [] {
      var c' := ApplyBlock(c, blocks[0], codecs).value;
      ScanCertificatesInOrder(blocks[1..], c', codecs);
      assert c'.certificates[..|c.certificates|] == c.certificates;
    }
  }

  /** A block of any other type is skipped. */
  lemma {:induction false} UnknownBlockIgnored(b: Block, rest: seq<Block>, c: Container, codecs: Codecs)
    requires b.kind !in {LicenseKeyType, LicenseType, SignatureType, CertificateType}
    ensures Scan([b] + rest, c, codecs) == Scan(rest, c, codecs)
  {
    assert ([b] + rest)[1..] == rest;
  }

  /** A signature block without an `algorithm` header records "sha256". */
  lemma {:induction false} SignatureAlgorithmDefault(b: Block, c: Container, codecs: Codecs)
    requires b.kind == SignatureType && "algorithm" !in b.headers
    ensures ApplyBlock(c, b, codecs) == Success(c.(signature := Some(Signature(b.bytes, "sha256"))))
  {
  }

  /** A signature block at the end overrides any earlier signature. */
  lemma {:induction false} LaterSignatureWins(blocks: seq<Block>, data: Bytes, algorithm: string, codecs: Codecs)
    requires Scan(blocks, Empty, codecs).Success?
    ensures var b := Block(SignatureType, map["algorithm" := algorithm], data);
      Parsing(blocks + [b], codecs) == Success(Scan(blocks, Empty, codecs).value.(signature := Some(Signature(data, algorithm))))
  {
    var b := Block(SignatureType, map["algorithm" := algorithm], data);
    ScanAppend(blocks, [b], Empty, codecs);
    assert [b][1..] == [];
  }

  /** A license key block at the end overrides the key earlier blocks set, and nothing else. */
  lemma {:induction false} LaterKeyWins(blocks: seq<Block>, headers: map<string, string>, key: Bytes, codecs: Codecs)
    requires Scan(blocks, Empty, codecs).Success?
    ensures var prev := Scan(blocks, Empty, codecs).value;
      Scan(blocks + [Block(LicenseKeyType, headers, key)], Empty, codecs) == Success(prev.(payload := prev.payload.(key := key)))
  {
    var b := Block(LicenseKeyType, headers, key);
    ScanAppend(blocks, [b], Empty, codecs);
    assert [b][1..] == [];
  }

  /**
   * A license block at the end whose `iv` header decodes overrides the data, the
   * algorithm and the IV earlier blocks set, and nothing else.
   */
  lemma {:induction false} LaterLicenseWins(blocks: seq<Block>, b: Block, iv: Bytes, codecs: Codecs)
    requires Scan(blocks, Empty, codecs).Success?
    requires b.kind == LicenseType && codecs.decodeBase64(HeaderOr(b, "iv", "")) == Success(iv)
    ensures var prev := Scan(blocks, Empty, codecs).value;
      Scan(blocks + [b], Empty, codecs)
        == Success(prev.(payload := prev.payload.(data := b.bytes, algorithm := HeaderOr(b, "algorithm", ""), iv := iv)))
  {
    ScanAppend(blocks, [b], Empty, codecs);
    assert [b][1..] == [];
  }

  /**
   * A license block whose `iv` header does not decode stops the parse with the
   * decoder's error, whatever blocks follow it.
   */
  lemma {:induction false} BadIvFails(blocks: seq<Block>, b: Block, rest: seq<Block>, codecs: Codecs)
    requires Scan(blocks, Empty, codecs).Success?
    requires b.kind == LicenseType && codecs.decodeBase64(HeaderOr(b, "iv", "")).Failure?
    ensures Parsing(blocks + [b] + rest, codecs) == Failure(codecs.decodeBase64(HeaderOr(b, "iv", "")).error)
  {
    ScanAppend(blocks, [b] + rest, Empty, codecs);
    assert blocks + [b] + rest == blocks + ([b] + rest);
    assert ([b] + rest)[1..] == rest;
  }

  /** Parsing fails without any signature block. */
  lemma {:induction false} ParseNeedsSignatureBlock(blocks: seq<Block>, codecs: Codecs)
    requires forall i :: 0 <= i < |blocks| ==> blocks[i].kind != SignatureType
    ensures Parsing(blocks, codecs).Failure?
  {
    NoSignatureStaysNone(blocks, Empty, codecs);
  }

  lemma {:induction false} NoSignatureStaysNone(blocks: seq<Block>, c: Container, codecs: Codecs)
    requires c.signature.None?
    requires forall i :: 0 <= i < |blocks| ==> blocks[i].kind != SignatureType
    ensures Scan(blocks, c, codecs).Success? ==> Scan(blocks, c, codecs).value.signature.None?
  {
    if blocks != [] {
      match ApplyBlock(c, blocks[0], codecs)
      case Failure(_) =>
      case Success(c') => NoSignatureStaysNone(blocks[1..], c', codecs);
    }
  }

  // ----- IsValid -----

  /** The first error checking that each certificate from index `i` on was signed by its predecessor. */
  function ChainError(certs: seq<Certificate>, i: nat, crypto: Crypto): Option<string>
    requires 1 <= i
    decreases |certs| - i
  {
    if i >= |certs| then None
    else if crypto.checkSignatureFrom(certs[i], certs[i - 1]).Some? then crypto.checkSignatureFrom(certs[i], certs[i - 1])
    else ChainError(certs, i + 1, crypto)
  }

  /** No error from index `i` on exactly when every link from there on checks. */
  lemma {:induction false} ChainErrorNone(certs: seq<Certificate>, i: nat, crypto: Crypto)
    requires 1 <= i
    ensures ChainError(certs, i, crypto).None?
        <==> forall j :: i <= j < |certs| ==> crypto.checkSignatureFrom(certs[j], certs[j - 1]).None?
    decreases |certs| - i
  {
    if i < |certs| {
      ChainErrorNone(certs, i + 1, crypto);
    }
  }

  /** What `(*Container).IsValid` decides. */
  function Validity(c: Container, root: Option<Certificate>, crypto: Crypto): Result<bool, string> {
    var certs := c.certificates;
    if |certs| == 0 then Failure(NoCertificates)
    else if !Equal(certs[0], root) then Failure(RootMismatch)
    else if ChainError(certs, 1, crypto).Some? then Failure(ChainError(certs, 1, crypto).value)
    else if c.signature.None? then Failure(NilSignature)
    else match HashByName(c.signature.value.algorithm)
      case Failure(e) => Failure(e)
      case Success(hash) =>
        match crypto.computeHash(c.payload.data, hash)
        case Failure(e) => Failure(e)
        case Success(hashed) =>
          var parent := certs[|certs| - 1];
          if parent.publicKeyAlgorithm != RSA then Failure(UnsupportedKey)
          else if !crypto.verifyPSS(parent, hash, hashed, c.signature.value.data) then Failure(SignatureMismatch)
          else Success(true)
  }

  /** The chain starts at the known root and each certificate is signed by the one before it. */
  predicate ChainTrusted(certs: seq<Certificate>, root: Option<Certificate>, crypto: Crypto) {
    |certs| > 0 && Equal(certs[0], root)
    && forall j :: 1 <= j < |certs| ==> crypto.checkSignatureFrom(certs[j], certs[j - 1]).None?
  }

  /** The payload signature verifies against the RSA key of the last certificate. */
  predicate SignatureVerifies(c: Container, crypto: Crypto)
    requires |c.certificates| > 0
  {
    var parent := c.certificates[|c.certificates| - 1];
    c.signature.Some? && HashByName(c.signature.value.algorithm).Success?
    && crypto.computeHash(c.payload.data, HashByName(c.signature.value.algorithm).value).Success?
    && parent.publicKeyAlgorithm == RSA
    && crypto.verifyPSS(parent, HashByName(c.signature.value.algorithm).value,
                        crypto.computeHash(c.payload.data, HashByName(c.signature.value.algorithm).value).value,
                        c.signature.value.data)
  }

  /** A container is valid exactly when its chain is trusted and its signature verifies against the last certificate. */
  lemma {:induction false} ValidityCharacterised(c: Container, root: Option<Certificate>, crypto: Crypto)
    ensures Validity(c, root, crypto).Success? ==> Validity(c, root, crypto).value
    ensures Validity(c, root, crypto).Success?
        <==> ChainTrusted(c.certificates, root, crypto) && SignatureVerifies(c, crypto)
  {
    ChainErrorNone(c.certificates, 1, crypto);
  }

  /** `(*Container).IsValid`, with the chain-check loop. */
  method IsValid(c: Container, root: Option<Certificate>, crypto: Crypto) returns (r: Result<bool, string>)
    ensures r == Validity(c, root, crypto)
  {
    var certs := c.certificates;
    if |certs| == 0 {
      return Failure(NoCertificates);
    }
    if !Equal(certs[0], root) {
      return Failure(RootMismatch);
    }
    var i := 1;
    while i < |certs|
      invariant 1 <= i <= |certs|
      invariant ChainError(certs, i, crypto) == ChainError(certs, 1, crypto)
    {
      var err := crypto.checkSignatureFrom(certs[i], certs[i - 1]);
      if err.Some? {
        return Failure(err.value);
      }
      i := i + 1;
    }
    if c.signature.None? {
      return Failure(NilSignature);
    }
    var hash := HashByName(c.signature.value.algorithm);
    if hash.Failure? {
      return Failure(hash.error);
    }
    var hashed := crypto.computeHash(c.payload.data, hash.value);
    if hashed.Failure? {
      return Failure(hashed.error);
    }
    var parent := certs[|certs| - 1];
    if parent.publicKeyAlgorithm != RSA {
      return Failure(UnsupportedKey);
    }
    if !crypto.verifyPSS(parent, hash.value, hashed.value, c.signature.value.data) {
      return Failure(SignatureMismatch);
    }
    return Success(true);
  }
}
