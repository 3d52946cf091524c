/** Pinned service identities and their time-windowed rotation. */
module ServiceIdentity {
  import opened Wrappers
  import opened Bytes
  import opened Crypto

  datatype ServiceIdentityError =
    | InvalidKey | InvalidRotationWindow | RotationWindowExpired | RevokedKey | InvalidSignatureSet

  datatype IdentityPolicy = IdentityPolicy(
    serviceId: Uuid,
    current: PublicKey,
    next: Option<PublicKey>,
    notBefore: Option<U64>,
    notAfter: Option<U64>,
    revoked: seq<PublicKey>)

  datatype ServiceSignature<+M> = ServiceSignature(publicKey: PublicKey, signature: Signature<M>)

  function Stable(serviceId: Uuid, current: PublicKey): IdentityPolicy {
    IdentityPolicy(serviceId, current, None, None, None, [])
  }

  /** `required_public_keys` */
  function RequiredKeys(p: IdentityPolicy, now: U64): Result<seq<PublicKey>, ServiceIdentityError> {
    if p.current.WrongLength? then Err(InvalidKey)
    else if p.current in p.revoked then Err(RevokedKey)
    else
      match p.next
      case None => if p.notBefore.Some? || p.notAfter.Some? then Err(InvalidRotationWindow) else Ok([p.current])
      case Some(next) =>
        if next.WrongLength? then Err(InvalidKey)
        else if next in p.revoked then Err(RevokedKey)
        else if p.notBefore.None? || p.notAfter.None? then Err(InvalidRotationWindow)
        else if p.notBefore.value >= p.notAfter.value || next == p.current then Err(InvalidRotationWindow)
        else if now < p.notBefore.value then Ok([p.current])
        else if now > p.notAfter.value then Err(RotationWindowExpired)
        else Ok([p.current, next])
  }

  /** The checking loop over required keys and signatures, from position `k` on. */
  function CheckPairs<M(==)>(required: seq<PublicKey>, message: M, signatures: seq<ServiceSignature<M>>, k: nat)
    : Outcome<ServiceIdentityError>
    requires |signatures| == |required| && k <= |required|
    decreases |required| - k
  {
    if k == |required| then Pass
    else if signatures[k].publicKey != required[k] then Fail(InvalidSignatureSet)
    else if required[k].WrongLength? then Fail(InvalidKey)
    else if required[k].OffCurve? then Fail(InvalidKey)
    else if !Verifies(required[k], message, signatures[k].signature) then Fail(InvalidSignatureSet)
    else CheckPairs(required, message, signatures, k + 1)
  }

  /** `verify_signatures` */
  function VerifySignatures<M(==)>(p: IdentityPolicy, message: M, signatures: seq<ServiceSignature<M>>, now: U64)
    : Outcome<ServiceIdentityError>
  {
    match RequiredKeys(p, now)
    case Err(e) => Fail(e)
    case Ok(required) =>
      if exists i :: 0 <= i < |signatures| && signatures[i].publicKey in p.revoked then Fail(RevokedKey)
      else if |signatures| != |required| then Fail(InvalidSignatureSet)
      else CheckPairs(required, message, signatures, 0)
  }

  // ----- What verifies

  /** The one list of signatures the holders of these keys make, in order. */
  function SignedByAll<M>(keys: seq<SigningKey>, message: M): (r: seq<ServiceSignature<M>>)
    ensures |r| == |keys|
    ensures forall i :: 0 <= i < |keys| ==> r[i] == ServiceSignature(VerifyingKey(keys[i]), Sign(keys[i], message))
  {
    seq(|keys|, i requires 0 <= i < |keys| => ServiceSignature(VerifyingKey(keys[i]), Sign(keys[i], message)))
  }

  function PublicKeys(keys: seq<SigningKey>): (r: seq<PublicKey>)
    ensures |r| == |keys| && forall i :: 0 <= i < |keys| ==> r[i] == VerifyingKey(keys[i])
  {
    seq(|keys|, i requires 0 <= i < |keys| => VerifyingKey(keys[i]))
  }

  lemma {:induction false} CheckPairsIsExact<M>(required: seq<PublicKey>, message: M,
                                                signatures: seq<ServiceSignature<M>>, k: nat)
    requires |signatures| == |required| && k <= |required|
    ensures CheckPairs(required, message, signatures, k).Pass? <==>
              forall i :: k <= i < |required| ==>
                && required[i].Ed25519?
                && signatures[i] == ServiceSignature(required[i], SignedBy(SigningKey(required[i].seed), message))
    decreases |required| - k
  {
    if k == |required| {
    } else {
      CheckPairsIsExact(required, message, signatures, k + 1);
    }
  }

  /** No rotation is announced. */
  predicate NoRotation(p: IdentityPolicy) {
    p.next.None? && p.notBefore.None? && p.notAfter.None?
  }

  /** A rotation is announced, to another key of the right length that is not revoked, over a
      window that is not empty. */
  predicate Rotates(p: IdentityPolicy) {
    && p.next.Some? && !p.next.value.WrongLength? && p.next.value !in p.revoked && p.next.value != p.current
    && p.notBefore.Some? && p.notAfter.Some? && p.notBefore.value < p.notAfter.value
  }

  /** Which keys are required, exactly: the current one without a rotation and before its window,
      both inside the window, the bounds included; none, with an error, for every other policy,
      and after the window. */
  lemma RequiredIsExact(p: IdentityPolicy, now: U64)
    ensures var usable := !p.current.WrongLength? && p.current !in p.revoked;
            && (RequiredKeys(p, now) == Ok([p.current]) <==>
                  usable && (NoRotation(p) || (Rotates(p) && now < p.notBefore.value)))
            && (RequiredKeys(p, now).Ok? && |RequiredKeys(p, now).value| == 2 <==>
                  usable && Rotates(p) && p.notBefore.value <= now <= p.notAfter.value)
            && (usable && Rotates(p) && p.notBefore.value <= now <= p.notAfter.value ==>
                  RequiredKeys(p, now) == Ok([p.current, p.next.value]))
            && (RequiredKeys(p, now) == Err(RotationWindowExpired) <==> usable && Rotates(p) && now > p.notAfter.value)
            && (RequiredKeys(p, now).Err? <==> !(usable && (NoRotation(p) || (Rotates(p) && now <= p.notAfter.value))))
  {
  }

  lemma RequiredIsUnrevoked(p: IdentityPolicy, now: U64)
    requires RequiredKeys(p, now).Ok?
    ensures forall i :: 0 <= i < |RequiredKeys(p, now).value| ==> RequiredKeys(p, now).value[i] !in p.revoked
  {
  }

  /** Signatures verify exactly when they are the required keys' signatures over the message,
      one for each, in order: every other list is refused. */
  lemma OnlyTheRequiredListVerifies<M>(p: IdentityPolicy, message: M,
                                       signatures: seq<ServiceSignature<M>>, now: U64)
    ensures VerifySignatures(p, message, signatures, now).Pass? <==>
              exists keys :: RequiredKeys(p, now) == Ok(PublicKeys(keys)) && signatures == SignedByAll(keys, message)
  {
    if RequiredKeys(p, now).Ok? {
      var required := RequiredKeys(p, now).value;
      RequiredIsUnrevoked(p, now);
      if VerifySignatures(p, message, signatures, now).Pass? {
        CheckPairsIsExact(required, message, signatures, 0);
        var keys := seq(|required|, i requires 0 <= i < |required| => SigningKey(required[i].seed));
        assert PublicKeys(keys) == required;
        assert signatures == SignedByAll(keys, message);
      }
      forall keys | RequiredKeys(p, now) == Ok(PublicKeys(keys)) && signatures == SignedByAll(keys, message)
        ensures VerifySignatures(p, message, signatures, now).Pass?
      {
        assert forall i :: 0 <= i < |signatures| ==> signatures[i].publicKey == required[i];
        CheckPairsIsExact(required, message, signatures, 0);
      }
    }
  }

  /** A revoked key spoils every list that carries it, at every time. */
  lemma RevokedKeyNeverVerifies<M>(p: IdentityPolicy, message: M,
                                   signatures: seq<ServiceSignature<M>>, now: U64, i: nat)
    requires i < |signatures| && signatures[i].publicKey in p.revoked
    ensures VerifySignatures(p, message, signatures, now).Fail?
  {
  }

  // ----- Rotation

  /** A rotation from one key to another over a window. */
  function Rotation(serviceId: Uuid, current: SigningKey, next: SigningKey, notBefore: U64, notAfter: U64,
                    revoked: seq<PublicKey>): IdentityPolicy
  {
    IdentityPolicy(serviceId, VerifyingKey(current), Some(VerifyingKey(next)), Some(notBefore), Some(notAfter), revoked)
  }

  /** A rotation with a proper window between two different keys, neither revoked. */
  predicate ProperRotation(current: SigningKey, next: SigningKey, notBefore: U64, notAfter: U64,
                           revoked: seq<PublicKey>) {
    && notBefore < notAfter && current != next
    && VerifyingKey(current) !in revoked && VerifyingKey(next) !in revoked
  }

  /** The keys a service signs with at an instant: the old one before the window, both inside. */
  function KeysAt(current: SigningKey, next: SigningKey, notBefore: U64, now: U64): seq<SigningKey> {
    if now < notBefore then [current] else [current, next]
  }

  lemma RotationRequires(serviceId: Uuid, current: SigningKey, next: SigningKey, notBefore: U64,
                         notAfter: U64,
                         revoked: seq<PublicKey>, now: U64)
    requires ProperRotation(current, next, notBefore, notAfter, revoked)
    ensures var required := RequiredKeys(Rotation(serviceId, current, next, notBefore, notAfter, revoked), now);
            if now <= notAfter then required == Ok(PublicKeys(KeysAt(current, next, notBefore, now)))
            else required == Err(RotationWindowExpired)
  {
    assert PublicKeys([current]) == [VerifyingKey(current)];
    assert PublicKeys([current, next]) == [VerifyingKey(current), VerifyingKey(next)];
  }

  /** What was signed with the keys of one instant verifies at another up to the end of the
      window if and only if both instants lie on the same side of its start. */
  lemma RotationVerifiesIff<M>(serviceId: Uuid, current: SigningKey, next: SigningKey,
                               notBefore: U64, notAfter: U64,
                               revoked: seq<PublicKey>, message: M, signedAt: U64, now: U64)
    requires ProperRotation(current, next, notBefore, notAfter, revoked)
    ensures var p := Rotation(serviceId, current, next, notBefore, notAfter, revoked);
            VerifySignatures(p, message, SignedByAll(KeysAt(current, next, notBefore, signedAt), message),
                now).Pass? <==>
              now <= notAfter && (signedAt < notBefore <==> now < notBefore)
  {
    var p := Rotation(serviceId, current, next, notBefore, notAfter, revoked);
    var signatures := SignedByAll(KeysAt(current, next, notBefore, signedAt), message);
    RotationRequires(serviceId, current, next, notBefore, notAfter, revoked, now);
    OnlyTheRequiredListVerifies(p, message, signatures, now);
    hide VerifySignatures, RequiredKeys;
    if now <= notAfter && (signedAt < notBefore <==> now < notBefore) {
      assert RequiredKeys(p, now) == Ok(PublicKeys(KeysAt(current, next, notBefore, signedAt)));
    }
  }

  /** After the rotation: the successor trusts the new key alone and refuses whatever still
      carries the old one. */
  lemma SuccessorRefusesTheOldKey<M>(serviceId: Uuid, retired: SigningKey, current: SigningKey,
                                     message: M,
                                     signatures: seq<ServiceSignature<M>>, now: U64)
    requires retired != current
    ensures var p := Stable(serviceId, VerifyingKey(current)).(revoked := [VerifyingKey(retired)]);
            VerifySignatures(p, message, signatures, now).Pass? <==> signatures == SignedByAll([current], message)
  {
    var p := Stable(serviceId, VerifyingKey(current)).(revoked := [VerifyingKey(retired)]);
    OnlyTheRequiredListVerifies(p, message, signatures, now);
    assert PublicKeys([current]) == [VerifyingKey(current)];
    assert RequiredKeys(p, now) == Ok([VerifyingKey(current)]);
    forall keys | PublicKeys(keys) == [VerifyingKey(current)] ensures keys == [current] {
      assert VerifyingKey(keys[0]) == VerifyingKey(current);
    }
  }
}
