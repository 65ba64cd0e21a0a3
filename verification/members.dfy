/** The family-member table: one row per member, looked up by id or by the
    hash of the member's client certificate. */
module Members {
  import opened Wrappers
  import Tables

  datatype Member = Member(
    id: string,
    name: string,
    displayName: string,
    email: string,
    role: string,
    certHash: string,
    certExpiresAt: Option<int>,
    isActive: bool,
    encryptionSalt: string,
    loginCount: int,
    lastLoginAt: Option<int>,
    preferences: string)

  predicate HasId(id: string, m: Member) { m.id == id }
  predicate HasCertHash(h: string, m: Member) { m.certHash == h }

  /** `findUnique({ where: { id } })`: a row carrying the id, or none only
      when no row does. */
  function FindById(members: seq<Member>, id: string): (k: Option<nat>)
    ensures k.Some? ==> k.value < |members| && members[k.value].id == id
    ensures k.None? <==> forall j :: 0 <= j < |members| ==> members[j].id != id
  {
    Tables.FirstWhere(members, m => HasId(id, m))
  }

  /** `findUnique({ where: { certHash } })`: a row carrying the hash, or none
      only when no row does. */
  function FindByCertHash(members: seq<Member>, h: string): (k: Option<nat>)
    ensures k.Some? ==> k.value < |members| && members[k.value].certHash == h
    ensures k.None? <==> forall j :: 0 <= j < |members| ==> members[j].certHash != h
  {
    Tables.FirstWhere(members, m => HasCertHash(h, m))
  }
}
