/** Client-certificate validation: an ordered chain of checks over the parsed
    certificate, the presented fingerprint and the member table. */
module Certificates {
  import opened Wrappers
  import opened Text
  import opened Members

  /** The fields of an X.509 certificate the check reads; times in ms. */
  datatype ParsedCertificate = ParsedCertificate(
    validFrom: int, validTo: int, fingerprint256: string,
    serialNumber: string, subject: string, issuer: string)

  /** Base64 decoding followed by X.509 parsing; `None` when either throws. */
  type CertificateParser = string -> Option<ParsedCertificate>

  /** `generateCertificateHash`: the SHA-256 digest of the certificate text. */
  type CertificateHasher = string -> string

  datatype ClientCertificate = ClientCertificate(
    fingerprint: string, serialNumber: string, subject: string, issuer: string,
    validFrom: int, validTo: int, isValid: bool)

  datatype CertError = CertificateExpired | FingerprintMismatch | UserNotFound | CertificateParseError
  {
    function Code(): string {
      match this
      case CertificateExpired => "certificate_expired"
      case FingerprintMismatch => "fingerprint_mismatch"
      case UserNotFound => "user_not_found"
      case CertificateParseError => "certificate_parse_error"
    }
  }

  datatype CertValidation =
    | Valid(user: Member, certificate: ClientCertificate)
    | Invalid(error: CertError)

  /** `s.replace(/:/g, '')`. */
  function RemoveColons(s: string): (r: string)
    ensures ':' !in r
    ensures |r| <= |s|
    decreases |s|
  {
    if s == [] then []
    else (if s[0] == ':' then [] else [s[0]]) + RemoveColons(s[1..])
  }

  /** The form both fingerprints are compared in: no ':' separators, lower case. */
  function NormalizeFingerprint(s: string): string {
    Lower(RemoveColons(s))
  }

  /** Whether the certificate period covers `now`. */
  predicate InPeriod(x: ParsedCertificate, now: int) {
    x.validFrom <= now <= x.validTo
  }

  /** `validateClientCertificate`. The database is consulted only after the
      certificate itself has passed; when it cannot be reached (`reachable`
      false) the thrown fault is reported as a parse error. The fingerprint
      comparison is `secureCompare`, which `Crypto.SecureCompare` proves to be
      string equality. */
  function ValidateClientCertificate(
    parse: CertificateParser, hash: CertificateHasher, certData: string, fingerprint: string,
    members: seq<Member>, reachable: bool, now: int): (r: CertValidation)
    ensures parse(certData).None? ==> r == Invalid(CertificateParseError)
    ensures r.Valid? ==>
      && parse(certData).Some? && InPeriod(parse(certData).value, now)
      && reachable && r.user in members && r.user.isActive
      && (r.user.certExpiresAt.None? || now <= r.user.certExpiresAt.value)
      && r.certificate.isValid && r.certificate.fingerprint == NormalizeFingerprint(fingerprint)
  {
    match parse(certData)
    case None => Invalid(CertificateParseError)
    case Some(x) =>
      if x.validTo < now || x.validFrom > now then Invalid(CertificateExpired)
      else
        var actual := NormalizeFingerprint(x.fingerprint256);
        if actual != NormalizeFingerprint(fingerprint) then Invalid(FingerprintMismatch)
        else if !reachable then Invalid(CertificateParseError)
        else match FindByCertHash(members, hash(certData))
          case None => Invalid(UserNotFound)
          case Some(k) =>
            var user := members[k];
            if !user.isActive then Invalid(UserNotFound)
            else if user.certExpiresAt.Some? && user.certExpiresAt.value < now then Invalid(CertificateExpired)
            else Valid(user, ClientCertificate(actual, x.serialNumber, x.subject, x.issuer,
                                               x.validFrom, x.validTo, true))
  }

  /** The member a certificate hash selects, if any. */
  function Holder(members: seq<Member>, certHash: string): Option<Member> {
    match FindByCertHash(members, certHash)
    case None => None
    case Some(k) => Some(members[k])
  }

  /** The chain, check by check: each rejection happens exactly when every
      earlier check has passed and its own fails; the certificate is accepted
      only when all pass, and then carries the table's member for the hash
      and the normalized fingerprint. */
  lemma ValidationOrder(
    parse: CertificateParser, hash: CertificateHasher, certData: string, fingerprint: string,
    members: seq<Member>, reachable: bool, now: int)
    ensures var r := ValidateClientCertificate(parse, hash, certData, fingerprint, members, reachable, now);
      var x := parse(certData);
      var holder := Holder(members, hash(certData));
      && (r == Invalid(CertificateParseError) <==>
            x.None? || (InPeriod(x.value, now)
                        && NormalizeFingerprint(x.value.fingerprint256) == NormalizeFingerprint(fingerprint)
                        && !reachable))
      && (r == Invalid(FingerprintMismatch) <==>
            x.Some? && InPeriod(x.value, now)
            && NormalizeFingerprint(x.value.fingerprint256) != NormalizeFingerprint(fingerprint))
      && (r == Invalid(UserNotFound) <==>
            x.Some? && InPeriod(x.value, now)
            && NormalizeFingerprint(x.value.fingerprint256) == NormalizeFingerprint(fingerprint)
            && reachable && (holder.None? || !holder.value.isActive))
      && (r == Invalid(CertificateExpired) <==>
            x.Some? && (!InPeriod(x.value, now)
                        || (NormalizeFingerprint(x.value.fingerprint256) == NormalizeFingerprint(fingerprint)
                            && reachable && holder.Some? && holder.value.isActive
                            && holder.value.certExpiresAt.Some? && holder.value.certExpiresAt.value < now)))
      && (r.Valid? <==>
            x.Some? && InPeriod(x.value, now)
            && NormalizeFingerprint(x.value.fingerprint256) == NormalizeFingerprint(fingerprint)
            && reachable && holder.Some? && holder.value.isActive
            && (holder.value.certExpiresAt.None? || holder.value.certExpiresAt.value >= now))
      && (r.Valid? ==>
            && Some(r.user) == holder
            && r.certificate.fingerprint == NormalizeFingerprint(fingerprint)
            && r.certificate.isValid
            && r.certificate.validFrom == x.value.validFrom && r.certificate.validTo == x.value.validTo)
  {
  }

  /** Removing separators distributes over concatenation. */
  lemma {:induction false} RemoveColonsAppend(a: string, b: string)
    ensures RemoveColons(a + b) == RemoveColons(a) + RemoveColons(b)
    decreases |a|
  {
    if a != [] {
      assert (a + b)[1..] == a[1..] + b;
      RemoveColonsAppend(a[1..], b);
    } else {
      assert a + b == b;
    }
  }

  /** Inserting a ':' anywhere in a fingerprint does not change it. */
  lemma SeparatorInsensitive(a: string, b: string)
    ensures NormalizeFingerprint(a + ":" + b) == NormalizeFingerprint(a + b)
  {
    RemoveColonsAppend(a + ":", b);
    RemoveColonsAppend(a, ":");
    RemoveColonsAppend(a, b);
  }

  /** Case mapping commutes with removing separators. */
  lemma {:induction false} RemoveColonsUpper(s: string)
    ensures RemoveColons(Upper(s)) == Upper(RemoveColons(s))
    decreases |s|
  {
    if s != [] {
      assert Upper(s) == [UpperChar(s[0])] + Upper(s[1..]);
      RemoveColonsUpper(s[1..]);
      assert Upper(RemoveColons(s)) == Upper(if s[0] == ':' then [] else [s[0]]) + Upper(RemoveColons(s[1..]));
    }
  }

  /** Upper- and lower-case hex digits give the same normalized fingerprint. */
  lemma CaseInsensitive(s: string)
    ensures NormalizeFingerprint(Upper(s)) == NormalizeFingerprint(s)
  {
    RemoveColonsUpper(s);
    var t := RemoveColons(s);
    assert Lower(Upper(t)) == Lower(t) by {
      forall i | 0 <= i < |t| ensures LowerChar(UpperChar(t[i])) == LowerChar(t[i]) {}
    }
  }

  /** The normalized form has no separators and no upper-case letters, and
      normalizing again changes nothing. */
  lemma NormalizedForm(s: string)
    ensures var n := NormalizeFingerprint(s);
      ':' !in n && (forall i :: 0 <= i < |n| ==> !IsUpper(n[i])) && NormalizeFingerprint(n) == n
  {
    var n := NormalizeFingerprint(s);
    var t := RemoveColons(s);
    assert forall i :: 0 <= i < |n| ==> n[i] == LowerChar(t[i]);
    assert ':' !in n by {
      forall i | 0 <= i < |n| ensures n[i] != ':' { assert t[i] != ':'; }
    }
    NoColonsUnchanged(n);
  }

  lemma {:induction false} NoColonsUnchanged(s: string)
    requires ':' !in s
    ensures RemoveColons(s) == s
    decreases |s|
  {
    if s != [] {
      assert ':' !in s[1..];
      NoColonsUnchanged(s[1..]);
    }
  }
}
