/**
 * Key attestation policy of src/attestation/attestation.service.ts. Certificates are taken as already
 * parsed records; whether a key verifies a certificate is an abstract relation.
 */
module Attestation {
  import opened Prelude
  import opened Serials
  import opened Text

  type Key = string
  type Bytes = string

  datatype RootOfTrust = RootOfTrust(deviceLocked: bool, bootVerified: bool)

  /** The application id inside an authorization list; Unreadable when its own encoding does not parse. */
  datatype AppId = Unreadable | AppId(packages: seq<string>, digests: seq<string>)

  datatype AuthList = AuthList(rootOfTrust: Option<RootOfTrust>, appId: Option<AppId>)

  datatype KeyDescription = KeyDescription(challenge: Bytes, attestationLevel: int, keymasterLevel: int,
                                           tee: AuthList, software: AuthList)

  /** The attestation extension of a certificate: absent, not parseable, or read. */
  datatype Extension = NoExtension | BadExtension | Read(description: KeyDescription)

  datatype Cert = Cert(publicKey: Key, validFrom: int, validTo: int, serial: string, extension: Extension)

  /** An uploaded certificate; Bad when `new X509Certificate` throws. */
  datatype Der = Bad | Good(cert: Cert)

  datatype Policy = Policy(trustedRoots: Option<seq<Key>>, packageName: string, signers: set<string>,
                           minLevel: int, requireVerifiedBoot: bool, revoked: set<string>)

  datatype Code = NotAChain | ChainSignature | UntrustedRoot | Revoked | Malformed | ChallengeMismatch
                | SecurityLevel | BootloaderUnlocked | BootNotVerified | PackageMismatch | SignerNotAllowed

  /** Whether a certificate was signed by the holder of a key. */
  type Verifies = (Cert, Key) -> bool

  datatype Attested = Attested(publicKey: Key, level: int)

  function Min(a: int, b: int): int { if a <= b then a else b }

  function Certs(chain: seq<Der>): seq<Cert>
    requires forall i | 0 <= i < |chain| :: chain[i].Good?
  {
    seq(|chain|, i requires 0 <= i < |chain| => chain[i].cert)
  }

  /** Each certificate is signed by the next, the last one by itself. */
  predicate SignedInTurn(verifies: Verifies, chain: seq<Cert>) {
    forall i | 0 <= i < |chain| :: verifies(chain[i], chain[Min(i + 1, |chain| - 1)].publicKey)
  }

  function Verify(p: Policy, verifies: Verifies, chain: seq<Der>, challenge: Bytes, now: int)
    : Result<Attested, Code>
  {
    if |chain| < 2 then Err(NotAChain)
    else if exists i | 0 <= i < |chain| :: chain[i].Bad? then Err(Malformed)
    else VerifyChain(p, verifies, Certs(chain), challenge, now)
  }

  function VerifyChain(p: Policy, verifies: Verifies, chain: seq<Cert>, challenge: Bytes, now: int)
    : Result<Attested, Code>
    requires |chain| >= 2
  {
    if !SignedInTurn(verifies, chain) then Err(ChainSignature)
    else if p.trustedRoots.Some? && chain[|chain| - 1].publicKey !in p.trustedRoots.value then Err(UntrustedRoot)
    else if exists i | 0 <= i < |chain| :: now < chain[i].validFrom || now > chain[i].validTo then Err(ChainSignature)
    else if exists i | 0 <= i < |chain| :: NormaliseSerial(chain[i].serial) in p.revoked then Err(Revoked)
    else
      match chain[0].extension
      case NoExtension => Err(Malformed)
      case BadExtension => Err(Malformed)
      case Read(d) => VerifyRecord(p, chain[0].publicKey, d, challenge)
  }

  /** The checks on the attestation record of the leaf. */
  function VerifyRecord(p: Policy, leafKey: Key, d: KeyDescription, challenge: Bytes): Result<Attested, Code> {
    var level := Min(d.attestationLevel, d.keymasterLevel);
    if d.challenge != challenge then Err(ChallengeMismatch)
    else if level < p.minLevel then Err(SecurityLevel)
    else if p.requireVerifiedBoot && d.tee.rootOfTrust.None? then Err(Malformed)
    else if p.requireVerifiedBoot && !d.tee.rootOfTrust.value.deviceLocked then Err(BootloaderUnlocked)
    else if p.requireVerifiedBoot && !d.tee.rootOfTrust.value.bootVerified then Err(BootNotVerified)
    else
      var code := AppRejection(p, if d.tee.appId.Some? then d.tee.appId else d.software.appId);
      if code.Some? then Err(code.value) else Ok(Attested(leafKey, level))
  }

  function AppRejection(p: Policy, appId: Option<AppId>): Option<Code> {
    match appId
    case None => Some(Malformed)
    case Some(Unreadable) => Some(Malformed)
    case Some(AppId(packages, digests)) =>
      if p.packageName !in packages then Some(PackageMismatch)
      else if digests == [] || exists i | 0 <= i < |digests| :: digests[i] !in p.signers then Some(SignerNotAllowed)
      else None
  }

  // ---------------------------------------------------------------- what acceptance means

  /** A signature path: each key signs the certificate before it, down to a certificate that signs itself. */
  ghost predicate SignaturePath(verifies: Verifies, chain: seq<Cert>)
    requires chain != []
  {
    if |chain| == 1 then verifies(chain[0], chain[0].publicKey)
    else verifies(chain[0], chain[1].publicKey) && SignaturePath(verifies, chain[1..])
  }

  lemma {:induction false} InTurnIsPath(verifies: Verifies, chain: seq<Cert>)
    requires chain != []
    ensures SignedInTurn(verifies, chain) <==> SignaturePath(verifies, chain)
  {
    if |chain| == 1 {
      assert SignedInTurn(verifies, chain) <==> verifies(chain[0], chain[Min(1, 0)].publicKey);
    } else {
      InTurnIsPath(verifies, chain[1..]);
      var rest := chain[1..];
      if SignedInTurn(verifies, chain) {
        forall i | 0 <= i < |rest| ensures verifies(rest[i], rest[Min(i + 1, |rest| - 1)].publicKey) {
          assert verifies(chain[i + 1], chain[Min(i + 2, |chain| - 1)].publicKey);
        }
        assert verifies(chain[0], chain[Min(1, |chain| - 1)].publicKey);
      }
      if verifies(chain[0], chain[1].publicKey) && SignedInTurn(verifies, rest) {
        forall i | 0 <= i < |chain| ensures verifies(chain[i], chain[Min(i + 1, |chain| - 1)].publicKey) {
          if i > 0 {
            assert verifies(rest[i - 1], rest[Min(i, |rest| - 1)].publicKey);
          }
        }
      }
    }
  }

  /** What every certificate of an accepted chain satisfies. */
  ghost predicate Usable(p: Policy, cert: Cert, now: int) {
    cert.validFrom <= now <= cert.validTo && NormaliseSerial(cert.serial) !in p.revoked
  }

  /** The leaf vouches for the challenge, a locked and verified device, and an app signed only by allowed signers. */
  ghost predicate Vouches(p: Policy, leaf: Cert, challenge: Bytes, level: int) {
    && leaf.extension.Read?
    && var d := leaf.extension.description;
    && d.challenge == challenge
    && p.minLevel <= level && level <= d.attestationLevel && level <= d.keymasterLevel
    && level in {d.attestationLevel, d.keymasterLevel}
    && (p.requireVerifiedBoot ==> d.tee.rootOfTrust == Some(RootOfTrust(true, true)))
    && (if d.tee.appId.Some? then AppAllowed(p, d.tee.appId.value)
        else d.software.appId.Some? && AppAllowed(p, d.software.appId.value))
  }

  ghost predicate AppAllowed(p: Policy, app: AppId) {
    app.AppId? && p.packageName in app.packages && app.digests != [] && forall x | x in app.digests :: x in p.signers
  }

  ghost predicate AllParsed(chain: seq<Der>) {
    forall i | 0 <= i < |chain| :: chain[i].Good?
  }

  /** Everything a chain must be to be accepted; SignaturePath makes its last certificate self-signed. */
  ghost predicate Acceptable(p: Policy, verifies: Verifies, chain: seq<Cert>, challenge: Bytes, now: int, level: int)
    requires |chain| >= 2
  {
    && SignaturePath(verifies, chain)
    && (p.trustedRoots.Some? ==> chain[|chain| - 1].publicKey in p.trustedRoots.value)
    && (forall i | 0 <= i < |chain| :: Usable(p, chain[i], now))
    && Vouches(p, chain[0], challenge, level)
  }

  lemma AppAllowedIff(p: Policy, app: AppId)
    ensures AppRejection(p, Some(app)).None? <==> AppAllowed(p, app)
  {
    if app.AppId? {
      assert forall i | 0 <= i < |app.digests| :: app.digests[i] in app.digests;
    }
  }

  lemma VouchesIff(p: Policy, verifies: Verifies, chain: seq<Cert>, challenge: Bytes, now: int, level: int)
    requires |chain| >= 2 && SignedInTurn(verifies, chain)
    requires p.trustedRoots.Some? ==> chain[|chain| - 1].publicKey in p.trustedRoots.value
    requires forall i | 0 <= i < |chain| :: Usable(p, chain[i], now)
    ensures VerifyChain(p, verifies, chain, challenge, now) == Ok(Attested(chain[0].publicKey, level))
            <==> Vouches(p, chain[0], challenge, level)
    ensures VerifyChain(p, verifies, chain, challenge, now).Ok? ==>
              VerifyChain(p, verifies, chain, challenge, now).value.publicKey == chain[0].publicKey
  {
    if chain[0].extension.Read? {
      var d := chain[0].extension.description;
      if d.tee.appId.Some? { AppAllowedIff(p, d.tee.appId.value); }
      if d.software.appId.Some? { AppAllowedIff(p, d.software.appId.value); }
    }
  }

  /** A chain is accepted, with its leaf's key and a level, exactly when it is acceptable at that level. */
  lemma AcceptedIff(p: Policy, verifies: Verifies, chain: seq<Der>, challenge: Bytes, now: int, a: Attested)
    ensures Verify(p, verifies, chain, challenge, now) == Ok(a)
            <==> |chain| >= 2 && AllParsed(chain) && a.publicKey == Certs(chain)[0].publicKey
                 && Acceptable(p, verifies, Certs(chain), challenge, now, a.level)
  {
    if |chain| >= 2 && AllParsed(chain) {
      var certs := Certs(chain);
      InTurnIsPath(verifies, certs);
      if SignedInTurn(verifies, certs)
        && (p.trustedRoots.Some? ==> certs[|certs| - 1].publicKey in p.trustedRoots.value)
         && forall i | 0 <= i < |certs| :: Usable(p, certs[i], now) {
        VouchesIff(p, verifies, certs, challenge, now, a.level);
      }
    }
  }

  /** At least as strict: fewer roots and signers, more revocations, a higher level, the same app. */
  ghost predicate Stricter(q: Policy, p: Policy) {
    && (p.trustedRoots.Some? ==>
          q.trustedRoots.Some? && forall k | k in q.trustedRoots.value :: k in p.trustedRoots.value)
    && q.packageName == p.packageName && q.signers <= p.signers && p.revoked <= q.revoked
    && p.minLevel <= q.minLevel && (p.requireVerifiedBoot ==> q.requireVerifiedBoot)
  }

  /** Tightening a policy never turns a rejection into an acceptance. */
  lemma StricterAcceptsLess(q: Policy, p: Policy, verifies: Verifies, chain: seq<Der>,
                            challenge: Bytes, now: int, a: Attested)
    requires Stricter(q, p) && Verify(q, verifies, chain, challenge, now) == Ok(a)
    ensures Verify(p, verifies, chain, challenge, now) == Ok(a)
  {
    AcceptedIff(q, verifies, chain, challenge, now, a);
    AcceptedIff(p, verifies, chain, challenge, now, a);
  }

  // ---------------------------------------------------------------- which failure is reported

  /** The checks in the order of the source; a later one presupposes that the earlier ones passed. */
  datatype Check = Length | Parse | Signatures | Root | Validity | Revocation | Record
                 | Nonce | Level | BootPresent | Locked | Boot | AppRecord | Package | Signer
  {
    function Rank(): nat {
      match this
      case Length => 0 case Parse => 1 case Signatures => 2 case Root => 3 case Validity => 4
      case Revocation => 5 case Record => 6 case Nonce => 7 case Level => 8 case BootPresent => 9
      case Locked => 10 case Boot => 11 case AppRecord => 12 case Package => 13 case Signer => 14
    }
  }

  ghost predicate Fails(k: Check, p: Policy, verifies: Verifies, chain: seq<Der>, challenge: Bytes, now: int) {
    if k.Length? then |chain| < 2
    else if k.Parse? then !AllParsed(chain)
    else if |chain| < 2 || !AllParsed(chain) then false
    else
      var certs := Certs(chain);
      match k
      case Signatures => !SignaturePath(verifies, certs)
      case Root => p.trustedRoots.Some? && certs[|certs| - 1].publicKey !in p.trustedRoots.value
      case Validity => exists i | 0 <= i < |certs| :: !(certs[i].validFrom <= now <= certs[i].validTo)
      case Revocation => exists i | 0 <= i < |certs| :: NormaliseSerial(certs[i].serial) in p.revoked
      case Record => !certs[0].extension.Read?
      case _ => certs[0].extension.Read? && RecordFails(k, p, certs[0].extension.description, challenge)
  }

  ghost predicate RecordFails(k: Check, p: Policy, d: KeyDescription, challenge: Bytes) {
    match k
    case Nonce => d.challenge != challenge
    case Level => d.attestationLevel < p.minLevel || d.keymasterLevel < p.minLevel
    case BootPresent => p.requireVerifiedBoot && d.tee.rootOfTrust.None?
    case Locked => p.requireVerifiedBoot && d.tee.rootOfTrust.Some? && !d.tee.rootOfTrust.value.deviceLocked
    case Boot => p.requireVerifiedBoot && d.tee.rootOfTrust.Some? && !d.tee.rootOfTrust.value.bootVerified
    case AppRecord => AppIdOf(d).None? || AppIdOf(d).value.Unreadable?
    case Package => AppIdOf(d).Some? && AppIdOf(d).value.AppId? && p.packageName !in AppIdOf(d).value.packages
    case Signer => AppIdOf(d).Some? && AppIdOf(d).value.AppId? && SignerFails(p, AppIdOf(d).value.digests)
    case _ => false
  }

  /** The hardware-enforced application id, or else the software-enforced one. */
  ghost function AppIdOf(d: KeyDescription): Option<AppId> {
    if d.tee.appId.Some? then d.tee.appId else d.software.appId
  }

  ghost predicate SignerFails(p: Policy, digests: seq<string>) {
    digests == [] || exists i | 0 <= i < |digests| :: digests[i] !in p.signers
  }

  /** The code that goes with a check. */
  ghost function CodeOf(k: Check): Code {
    match k
    case Length => NotAChain case Parse => Malformed case Signatures => ChainSignature
    case Root => UntrustedRoot case Validity => ChainSignature case Revocation => Revoked
    case Record => Malformed case Nonce => ChallengeMismatch case Level => SecurityLevel
    case BootPresent => Malformed case Locked => BootloaderUnlocked case Boot => BootNotVerified
    case AppRecord => Malformed case Package => PackageMismatch case Signer => SignerNotAllowed
  }

  /** A rejection carries the code of the first check that fails. */
  lemma FirstFailure(p: Policy, verifies: Verifies, chain: seq<Der>, challenge: Bytes, now: int, k: Check)
    requires Fails(k, p, verifies, chain, challenge, now)
    requires forall j: Check | j.Rank() < k.Rank() :: !Fails(j, p, verifies, chain, challenge, now)
    ensures Verify(p, verifies, chain, challenge, now) == Err(CodeOf(k))
  {
    EarlierPass(p, verifies, chain, challenge, now, k);
    if k.Rank() > 1 {
      var certs := Certs(chain);
      InTurnIsPath(verifies, certs);
      if k.Rank() > 6 {
        assert VerifyChain(p, verifies, certs, challenge, now)
            == VerifyRecord(p, certs[0].publicKey, certs[0].extension.description, challenge);
        FirstRecordFailure(p, certs[0].publicKey, certs[0].extension.description, challenge, k);
      }
    }
  }

  /** And when no check fails there is no rejection. */
  lemma NoFailure(p: Policy, verifies: Verifies, chain: seq<Der>, challenge: Bytes, now: int)
    requires forall j: Check :: !Fails(j, p, verifies, chain, challenge, now)
    ensures Verify(p, verifies, chain, challenge, now).Ok?
  {
    EarlierPass(p, verifies, chain, challenge, now, Signer);
    assert !Fails(Signer, p, verifies, chain, challenge, now);
    var certs := Certs(chain);
    InTurnIsPath(verifies, certs);
    assert VerifyChain(p, verifies, certs, challenge, now)
        == VerifyRecord(p, certs[0].publicKey, certs[0].extension.description, challenge);
    RecordPasses(p, certs[0].publicKey, certs[0].extension.description, challenge);
  }

  lemma RecordPasses(p: Policy, leafKey: Key, d: KeyDescription, challenge: Bytes)
    requires forall j: Check | 6 < j.Rank() < 14 :: !RecordFails(j, p, d, challenge)
    requires !RecordFails(Signer, p, d, challenge)
    ensures VerifyRecord(p, leafKey, d, challenge).Ok?
  {
    RecordBefore(p, d, challenge, Signer);
  }

  lemma FirstRecordFailure(p: Policy, leafKey: Key, d: KeyDescription, challenge: Bytes, k: Check)
    requires k.Rank() > 6 && RecordFails(k, p, d, challenge)
    requires forall j: Check | 6 < j.Rank() < k.Rank() :: !RecordFails(j, p, d, challenge)
    ensures VerifyRecord(p, leafKey, d, challenge) == Err(CodeOf(k))
  {
    RecordBefore(p, d, challenge, k);
  }

  lemma RecordBefore(p: Policy, d: KeyDescription, challenge: Bytes, k: Check)
    requires forall j: Check | 6 < j.Rank() < k.Rank() :: !RecordFails(j, p, d, challenge)
    ensures k.Rank() > 7 ==> !RecordFails(Nonce, p, d, challenge)
    ensures k.Rank() > 8 ==> !RecordFails(Level, p, d, challenge)
    ensures k.Rank() > 9 ==> !RecordFails(BootPresent, p, d, challenge)
    ensures k.Rank() > 10 ==> !RecordFails(Locked, p, d, challenge)
    ensures k.Rank() > 11 ==> !RecordFails(Boot, p, d, challenge)
    ensures k.Rank() > 12 ==> !RecordFails(AppRecord, p, d, challenge)
    ensures k.Rank() > 13 ==> !RecordFails(Package, p, d, challenge)
  {
  }

  lemma EarlierPass(p: Policy, verifies: Verifies, chain: seq<Der>, challenge: Bytes, now: int, k: Check)
    requires forall j: Check | j.Rank() < k.Rank() :: !Fails(j, p, verifies, chain, challenge, now)
    ensures k.Rank() > 0 ==> |chain| >= 2
    ensures k.Rank() > 1 ==> AllParsed(chain)
    ensures k.Rank() > 2 ==> SignaturePath(verifies, Certs(chain))
    ensures k.Rank() > 3 ==> p.trustedRoots.Some? ==> Certs(chain)[|chain| - 1].publicKey in p.trustedRoots.value
    ensures k.Rank() > 4 ==> forall i | 0 <= i < |chain| :: Certs(chain)[i].validFrom <= now <= Certs(chain)[i].validTo
    ensures k.Rank() > 5 ==> forall i | 0 <= i < |chain| :: NormaliseSerial(Certs(chain)[i].serial) !in p.revoked
    ensures k.Rank() > 6 ==> Certs(chain)[0].extension.Read?
    ensures k.Rank() > 6 ==> forall j: Check | 6 < j.Rank() < k.Rank() ::
              !RecordFails(j, p, Certs(chain)[0].extension.description, challenge)
  {
    assert k.Rank() > 0 ==> !Fails(Length, p, verifies, chain, challenge, now);
    assert k.Rank() > 1 ==> !Fails(Parse, p, verifies, chain, challenge, now);
    assert k.Rank() > 2 ==> !Fails(Signatures, p, verifies, chain, challenge, now);
    assert k.Rank() > 3 ==> !Fails(Root, p, verifies, chain, challenge, now);
    assert k.Rank() > 4 ==> !Fails(Validity, p, verifies, chain, challenge, now);
    assert k.Rank() > 5 ==> !Fails(Revocation, p, verifies, chain, challenge, now);
    assert k.Rank() > 6 ==> !Fails(Record, p, verifies, chain, challenge, now);
  }

  /** No certificate of an accepted chain has a serial number that a configured entry denotes. */
  lemma AcceptedUnrevoked(p: Policy, raw: string, verifies: Verifies, chain: seq<Der>, challenge: Bytes, now: int,
                          a: Attested, i: nat)
    requires p.revoked == SerialSet(raw) && Verify(p, verifies, chain, challenge, now) == Ok(a)
    requires i < |chain| && chain[i].Good? && AllHex(chain[i].cert.serial) && chain[i].cert.serial != ""
    ensures !exists e | e in Split(raw, ',') :: Denotes(e, HexValue(chain[i].cert.serial))
  {
    AcceptedIff(p, verifies, chain, challenge, now, a);
    var certs := Certs(chain);
    assert Acceptable(p, verifies, certs, challenge, now, a.level);
    assert certs[i] == chain[i].cert;
    assert Usable(p, certs[i], now);
    RevokedIff(raw, chain[i].cert.serial);
  }
}
