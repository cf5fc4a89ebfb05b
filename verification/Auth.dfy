/** Authentication tokens, the device MACs that protect them, and the per-operation
    authentication checks (ta/src/operation.rs, ta/src/lib.rs, ta/src/clock.rs). */
module Auth {
  import opened Base
  import opened KeyParams
  import Tags

  datatype AuthenticatorType = NoAuthenticator | Password | Fingerprint | AnyAuthenticator {
    function Code(): I32 {
      match this
      case NoAuthenticator => 0
      case Password => 1
      case Fingerprint => 2
      case AnyAuthenticator => -1
    }
  }

  datatype HardwareAuthToken = HardwareAuthToken(
    challenge: I64, userId: I64, authenticatorId: I64, authenticatorType: AuthenticatorType, timestamp: I64,
    mac: Bytes)

  datatype TimeStampToken = TimeStampToken(challenge: I64, timestamp: I64, mac: Bytes)

  // ---- MAC inputs ----

  /** "Auth Verification" */
  const TIME_STAMP_MAC_LABEL: Bytes :=
    [0x41, 0x75, 0x74, 0x68, 0x20, 0x56, 0x65, 0x72, 0x69, 0x66, 0x69, 0x63, 0x61, 0x74, 0x69, 0x6f, 0x6e]

  /** "confirmation token" */
  const CONFIRMATION_DATA_PREFIX: Bytes :=
    [0x63, 0x6f, 0x6e, 0x66, 0x69, 0x72, 0x6d, 0x61, 0x74, 0x69, 0x6f, 0x6e, 0x20, 0x74, 0x6f, 0x6b, 0x65, 0x6e]

  function AuthTokenMacInput(t: HardwareAuthToken): (b: Bytes)
    ensures |b| == 37
  {
    [0] + LittleEndian(AsU64(t.challenge), 8) + LittleEndian(AsU64(t.userId), 8)
    + LittleEndian(AsU64(t.authenticatorId), 8) + BigEndian(AsU32(t.authenticatorType.Code()), 4)
    + BigEndian(AsU64(t.timestamp), 8)
  }

  function TimeStampMacInput(t: TimeStampToken): (b: Bytes)
    ensures |b| == 37
  {
    TIME_STAMP_MAC_LABEL + BigEndian(AsU64(t.challenge), 8) + BigEndian(AsU64(t.timestamp), 8) + BigEndian(1, 4)
  }

  lemma SixParts(a: Bytes, b: Bytes, c: Bytes, d: Bytes, e: Bytes, f: Bytes)
    requires |a| == 1 && |b| == |c| == |d| == 8 && |e| == 4 && |f| == 8
    ensures var s := a + b + c + d + e + f;
            |s| == 37 && s[1..9] == b && s[9..17] == c && s[17..25] == d && s[25..29] == e && s[29..37] == f
  {
  }

  lemma FourParts(a: Bytes, b: Bytes, c: Bytes, d: Bytes)
    requires |a| == 17 && |b| == |c| == 8 && |d| == 4
    ensures var s := a + b + c + d; |s| == 37 && s[..17] == a && s[17..25] == b && s[25..33] == c && s[33..37] == d
  {
  }

  /** What a reader finds at each offset of the token's MAC input: the version byte, three numbers in the host's order
      and two in network order. */
  lemma AuthTokenLayout(t: HardwareAuthToken)
    ensures var b := AuthTokenMacInput(t);
            && b[0] == 0
            && FromLittleEndian(b[1..9]) == AsU64(t.challenge)
            && FromLittleEndian(b[9..17]) == AsU64(t.userId)
            && FromLittleEndian(b[17..25]) == AsU64(t.authenticatorId)
            && FromBigEndian(b[25..29]) == AsU32(t.authenticatorType.Code())
            && FromBigEndian(b[29..37]) == AsU64(t.timestamp)
  {
    SixParts([0], LittleEndian(AsU64(t.challenge), 8), LittleEndian(AsU64(t.userId), 8), LittleEndian(AsU64(t.authenticatorId), 8),
             BigEndian(AsU32(t.authenticatorType.Code()), 4), BigEndian(AsU64(t.timestamp), 8));
    Pow256Values();
    LittleEndianRoundTrip(AsU64(t.challenge), 8);
    LittleEndianRoundTrip(AsU64(t.userId), 8);
    LittleEndianRoundTrip(AsU64(t.authenticatorId), 8);
    BigEndianRoundTrip(AsU32(t.authenticatorType.Code()), 4);
    BigEndianRoundTrip(AsU64(t.timestamp), 8);
  }

  /** The same for a timestamp: label, challenge, time, and the security level of a trusted environment. */
  lemma TimeStampLayout(t: TimeStampToken)
    ensures var b := TimeStampMacInput(t);
            && b[..17] == TIME_STAMP_MAC_LABEL
            && FromBigEndian(b[17..25]) == AsU64(t.challenge)
            && FromBigEndian(b[25..33]) == AsU64(t.timestamp)
            && FromBigEndian(b[33..37]) == 1
  {
    FourParts(TIME_STAMP_MAC_LABEL, BigEndian(AsU64(t.challenge), 8), BigEndian(AsU64(t.timestamp), 8), BigEndian(1, 4));
    Pow256Values();
    BigEndianRoundTrip(AsU64(t.challenge), 8);
    BigEndianRoundTrip(AsU64(t.timestamp), 8);
    BigEndianRoundTrip(1, 4);
  }

  lemma LittleEndianInjective(x: I64, y: I64)
    requires LittleEndian(AsU64(x), 8) == LittleEndian(AsU64(y), 8)
    ensures x == y
  {
    Pow256Values();
    LittleEndianRoundTrip(AsU64(x), 8);
    LittleEndianRoundTrip(AsU64(y), 8);
  }

  lemma BigEndianInjective(x: nat, y: nat, n: nat)
    requires x < Pow256(n) && y < Pow256(n) && BigEndian(x, n) == BigEndian(y, n)
    ensures x == y
  {
    BigEndianRoundTrip(x, n);
    BigEndianRoundTrip(y, n);
  }

  /** The MAC of an authentication token covers every field of it. */
  lemma AuthTokenMacCoversToken(t: HardwareAuthToken, u: HardwareAuthToken)
    requires AuthTokenMacInput(t) == AuthTokenMacInput(u)
    ensures t == u.(mac := t.mac)
  {
    SixParts([0], LittleEndian(AsU64(t.challenge), 8), LittleEndian(AsU64(t.userId), 8), LittleEndian(AsU64(t.authenticatorId), 8),
             BigEndian(AsU32(t.authenticatorType.Code()), 4), BigEndian(AsU64(t.timestamp), 8));
    SixParts([0], LittleEndian(AsU64(u.challenge), 8), LittleEndian(AsU64(u.userId), 8), LittleEndian(AsU64(u.authenticatorId), 8),
             BigEndian(AsU32(u.authenticatorType.Code()), 4), BigEndian(AsU64(u.timestamp), 8));
    LittleEndianInjective(t.challenge, u.challenge);
    LittleEndianInjective(t.userId, u.userId);
    LittleEndianInjective(t.authenticatorId, u.authenticatorId);
    Pow256Values();
    BigEndianInjective(AsU32(t.authenticatorType.Code()), AsU32(u.authenticatorType.Code()), 4);
    BigEndianInjective(AsU64(t.timestamp), AsU64(u.timestamp), 8);
  }

  lemma TimeStampMacCoversToken(t: TimeStampToken, u: TimeStampToken)
    requires TimeStampMacInput(t) == TimeStampMacInput(u)
    ensures t == u.(mac := t.mac)
  {
    FourParts(TIME_STAMP_MAC_LABEL, BigEndian(AsU64(t.challenge), 8), BigEndian(AsU64(t.timestamp), 8), BigEndian(1, 4));
    FourParts(TIME_STAMP_MAC_LABEL, BigEndian(AsU64(u.challenge), 8), BigEndian(AsU64(u.timestamp), 8), BigEndian(1, 4));
    Pow256Values();
    BigEndianInjective(AsU64(t.challenge), AsU64(u.challenge), 8);
    BigEndianInjective(AsU64(t.timestamp), AsU64(u.timestamp), 8);
  }

  /** One device key serves three purposes, but no MAC input of one is an input of another,
      although token inputs have equal lengths. */
  lemma MacPurposesAreDisjoint(t: HardwareAuthToken, u: TimeStampToken, message: Bytes)
    ensures AuthTokenMacInput(t) != TimeStampMacInput(u)
    ensures AuthTokenMacInput(t) != CONFIRMATION_DATA_PREFIX + message
    ensures TimeStampMacInput(u) != CONFIRMATION_DATA_PREFIX + message
  {
    assert AuthTokenMacInput(t)[0] == 0;
    assert TimeStampMacInput(u)[0] == 0x41;
    assert (CONFIRMATION_DATA_PREFIX + message)[0] == 0x63;
  }

  // ---- Authentication requirements of a key ----

  datatype AuthInfo = AuthInfo(secureIds: seq<U64>, authType: U32, timeoutSecs: Option<U32>)

  function SecureIdOf(p: KeyParam): Option<U64> { if p.Ulong? && p.ulongTag == UserSecureId then Some(p.u64) else None }
  function AuthTypeOf(p: KeyParam): Option<U32> { if p.Uint? && p.uintTag == UserAuthType then Some(p.u32) else None }
  function AuthTimeoutOf(p: KeyParam): Option<U32> { if p.Uint? && p.uintTag == AuthTimeout then Some(p.u32) else None }

  /** What a key demands after `begin()`: nothing without secure IDs, otherwise a unique
      authenticator type and at most one timeout. */
  function RequiredAuth(chars: seq<KeyParam>): Result<Option<AuthInfo>> {
    var ids := Tags.Select(chars, SecureIdOf);
    var types := Tags.Select(chars, AuthTypeOf);
    var timeouts := Tags.Select(chars, AuthTimeoutOf);
    if |types| > 1 || |timeouts| > 1 then Err(InvalidKeyBlob)
    else if ids == [] then Ok(None)
    else if types == [] then Err(KeyUserNotAuthenticated)
    else if Flag(NoAuthRequired) in chars then Err(InvalidKeyBlob)
    else Ok(Some(AuthInfo(ids, types[0], if timeouts == [] then None else Some(timeouts[0]))))
  }

  lemma UintSelects(chars: seq<KeyParam>, t: UintTag, pick: KeyParam -> Option<U32>)
    requires Tags.Picks(pick, OfUint(t), (v: U32) => Uint(t, v))
    ensures forall v: U32 :: Tags.Select(chars, pick) == [v] <==> Tags.Sole(chars, Uint(t, v))
    ensures Tags.Select(chars, pick) == [] <==> Tags.Lacks(chars, OfUint(t))
  {
    var make: U32 -> KeyParam := (v: U32) => Uint(t, v);
    Tags.SelectNone(chars, pick, OfUint(t), make);
    forall v: U32 ensures Tags.Select(chars, pick) == [v] <==> Tags.Sole(chars, Uint(t, v)) {
      Tags.SelectOne(chars, pick, OfUint(t), make, v);
    }
  }

  lemma AuthTypeSelects(chars: seq<KeyParam>)
    ensures forall v: U32 :: Tags.Select(chars, AuthTypeOf) == [v] <==> Tags.Sole(chars, Uint(UserAuthType, v))
    ensures Tags.Select(chars, AuthTypeOf) == [] <==> Tags.Lacks(chars, OfUint(UserAuthType))
  {
    UintSelects(chars, UserAuthType, AuthTypeOf);
  }

  lemma AuthTimeoutSelects(chars: seq<KeyParam>)
    ensures forall v: U32 :: Tags.Select(chars, AuthTimeoutOf) == [v] <==> Tags.Sole(chars, Uint(AuthTimeout, v))
    ensures Tags.Select(chars, AuthTimeoutOf) == [] <==> Tags.Lacks(chars, OfUint(AuthTimeout))
  {
    UintSelects(chars, AuthTimeout, AuthTimeoutOf);
  }

  lemma {:induction false} SecureIdsAre(chars: seq<KeyParam>, sid: U64)
    ensures sid in Tags.Select(chars, SecureIdOf) <==> Ulong(UserSecureId, sid) in chars
  {
    if chars != [] {
      SecureIdsAre(chars[1..], sid);
      assert Ulong(UserSecureId, sid) in chars <==> chars[0] == Ulong(UserSecureId, sid) || Ulong(UserSecureId, sid) in chars[1..];
    }
  }

  lemma NoSecureIds(chars: seq<KeyParam>)
    ensures Tags.Select(chars, SecureIdOf) == [] <==> Tags.Lacks(chars, OfUlong(UserSecureId))
  {
    Tags.SelectNone(chars, SecureIdOf, OfUlong(UserSecureId), (v: U64) => Ulong(UserSecureId, v));
  }

  lemma RequiredWhen(chars: seq<KeyParam>)
    ensures RequiredAuth(chars) == Ok(None) <==>
            && Tags.AtMostOne(chars, OfUint(UserAuthType)) && Tags.AtMostOne(chars, OfUint(AuthTimeout))
            && Tags.Lacks(chars, OfUlong(UserSecureId))
    ensures var r := RequiredAuth(chars);
            r.Ok? && r.value.Some? <==>
            && !Tags.Lacks(chars, OfUlong(UserSecureId)) && Flag(NoAuthRequired) !in chars
            && (exists v: U32 :: Tags.Sole(chars, Uint(UserAuthType, v))) && Tags.AtMostOne(chars, OfUint(AuthTimeout))
  {
    AuthTypeSelects(chars);
    AuthTimeoutSelects(chars);
    NoSecureIds(chars);
    AtMostOneUint(chars, UserAuthType, Tags.Select(chars, AuthTypeOf));
    AtMostOneUint(chars, AuthTimeout, Tags.Select(chars, AuthTimeoutOf));
  }

  lemma RequiredWhat(chars: seq<KeyParam>, info: AuthInfo)
    requires RequiredAuth(chars) == Ok(Some(info))
    ensures Tags.Sole(chars, Uint(UserAuthType, info.authType))
    ensures forall v: U32 :: info.timeoutSecs == Some(v) <==> Tags.Sole(chars, Uint(AuthTimeout, v))
    ensures forall sid: U64 :: sid in info.secureIds <==> Ulong(UserSecureId, sid) in chars
  {
    AuthTypeSelects(chars);
    AuthTimeoutSelects(chars);
    forall sid: U64 ensures sid in Tags.Select(chars, SecureIdOf) <==> Ulong(UserSecureId, sid) in chars {
      SecureIdsAre(chars, sid);
    }
  }

  /** What a key demands, by what is in its characteristics: at most one type and one timeout; nothing without a secure
      ID; and otherwise all its secure IDs, its type and its timeout, unless it also says that none is needed. */
  lemma RequiredAuthExact(chars: seq<KeyParam>)
    ensures RequiredAuth(chars) == Ok(None) <==>
            && Tags.AtMostOne(chars, OfUint(UserAuthType)) && Tags.AtMostOne(chars, OfUint(AuthTimeout))
            && Tags.Lacks(chars, OfUlong(UserSecureId))
    ensures var r := RequiredAuth(chars);
            r.Ok? && r.value.Some? <==>
            && !Tags.Lacks(chars, OfUlong(UserSecureId)) && Flag(NoAuthRequired) !in chars
            && (exists v: U32 :: Tags.Sole(chars, Uint(UserAuthType, v))) && Tags.AtMostOne(chars, OfUint(AuthTimeout))
    ensures var r := RequiredAuth(chars);
            r.Ok? && r.value.Some? ==>
              && Tags.Sole(chars, Uint(UserAuthType, r.value.value.authType))
              && (forall v: U32 :: r.value.value.timeoutSecs == Some(v) <==> Tags.Sole(chars, Uint(AuthTimeout, v)))
              && (forall sid: U64 :: sid in r.value.value.secureIds <==> Ulong(UserSecureId, sid) in chars)
  {
    RequiredWhen(chars);
    var r := RequiredAuth(chars);
    if r.Ok? && r.value.Some? {
      RequiredWhat(chars, r.value.value);
    }
  }

  lemma AtMostOneUint(chars: seq<KeyParam>, t: UintTag, found: seq<U32>)
    requires forall v: U32 :: found == [v] <==> Tags.Sole(chars, Uint(t, v))
    requires found == [] <==> Tags.Lacks(chars, OfUint(t))
    ensures |found| <= 1 <==> Tags.AtMostOne(chars, OfUint(t))
    ensures |found| == 1 <==> exists v: U32 :: Tags.Sole(chars, Uint(t, v))
  {
    if |found| == 1 {
      assert found == [found[0]];
      assert Tags.Sole(chars, Uint(t, found[0])) && ParamTag(Uint(t, found[0])) == OfUint(t);
    }
    if !Tags.Lacks(chars, OfUint(t)) && Tags.AtMostOne(chars, OfUint(t)) {
      var p :| ParamTag(p) == OfUint(t) && Tags.Sole(chars, p);
      assert p == Uint(t, p.u32);
    }
  }

  lemma SelectNext<T>(chars: seq<KeyParam>, i: nat, pick: KeyParam -> Option<T>)
    requires i < |chars|
    ensures Tags.Select(chars[..i + 1], pick) ==
            Tags.Select(chars[..i], pick) + (if pick(chars[i]).Some? then [pick(chars[i]).value] else [])
  {
    assert chars[..i + 1] == chars[..i] + [chars[i]];
    Tags.SelectAppend(chars[..i], chars[i], pick);
  }

  lemma MemberNext(chars: seq<KeyParam>, i: nat, p: KeyParam)
    requires i < |chars|
    ensures p in chars[..i + 1] <==> p in chars[..i] || p == chars[i]
  {
    assert chars[..i + 1] == chars[..i] + [chars[i]];
  }

  /** `AuthInfo::new`: one pass over the characteristics. */
  method NewAuthInfo(chars: seq<KeyParam>) returns (r: Result<Option<AuthInfo>>)
    ensures r == RequiredAuth(chars)
  {
    var secureIds: seq<U64> := [];
    var authType: Option<U32> := None;
    var timeoutSecs: Option<U32> := None;
    var noAuthRequired := false;
    for i := 0 to |chars|
      invariant secureIds == Tags.Select(chars[..i], SecureIdOf)
      invariant Tags.Select(chars[..i], AuthTypeOf) == if authType.Some? then [authType.value] else []
      invariant Tags.Select(chars[..i], AuthTimeoutOf) == if timeoutSecs.Some? then [timeoutSecs.value] else []
      invariant noAuthRequired <==> Flag(NoAuthRequired) in chars[..i]
    {
      var p := chars[i];
      SelectNext(chars, i, SecureIdOf);
      SelectNext(chars, i, AuthTypeOf);
      SelectNext(chars, i, AuthTimeoutOf);
      MemberNext(chars, i, Flag(NoAuthRequired));
      if SecureIdOf(p).Some? {
        secureIds := secureIds + [p.u64];
      } else if AuthTypeOf(p).Some? {
        if authType.Some? {
          SelectPrefix(chars, i + 1, AuthTypeOf);
          return Err(InvalidKeyBlob);
        }
        authType := Some(p.u32);
      } else if AuthTimeoutOf(p).Some? {
        if timeoutSecs.Some? {
          SelectPrefix(chars, i + 1, AuthTimeoutOf);
          return Err(InvalidKeyBlob);
        }
        timeoutSecs := Some(p.u32);
      } else if p == Flag(NoAuthRequired) {
        noAuthRequired := true;
      }
    }
    assert chars[..|chars|] == chars;
    if secureIds == [] {
      r := Ok(None);
    } else if authType.None? {
      r := Err(KeyUserNotAuthenticated);
    } else if noAuthRequired {
      r := Err(InvalidKeyBlob);
    } else {
      r := Ok(Some(AuthInfo(secureIds, authType.value, timeoutSecs)));
    }
  }

  lemma {:induction false} SelectPrefix<T>(chars: seq<KeyParam>, i: nat, pick: KeyParam -> Option<T>)
    requires i <= |chars|
    ensures |Tags.Select(chars[..i], pick)| <= |Tags.Select(chars, pick)|
    decreases |chars| - i
  {
    if i < |chars| {
      SelectNext(chars, i, pick);
      SelectPrefix(chars, i + 1, pick);
    } else {
      assert chars[..i] == chars;
    }
  }

  // ---- Checks ----

  /** The device MAC, once its key has been negotiated. */
  type DeviceHmac = Option<Bytes -> Bytes>

  function VerifyDeviceHmac(hmac: DeviceHmac, data: Bytes, mac: Bytes): Result<bool> {
    if hmac.None? then Err(HardwareNotYetAvailable) else Ok(hmac.value(data) == mac)
  }

  /** Bit `k` of a number. */
  predicate Bit(n: nat, k: nat) { if k == 0 then n % 2 == 1 else Bit(n / 2, k - 1) }

  /** A common bit: `a & b != 0`. */
  predicate Overlaps(a: U32, b: U32) { exists k :: 0 <= k < 32 && Bit(a, k) && Bit(b, k) }

  predicate NamesUser(t: HardwareAuthToken, sid: U64) {
    t.userId == AsI64(sid) || t.authenticatorId == AsI64(sid)
  }

  function CheckAuthToken(hmac: DeviceHmac, t: HardwareAuthToken, info: AuthInfo, now: Option<I64>, timeoutSecs: Option<U32>,
                          challenge: Option<I64>): Result<()> {
    var verified :- VerifyDeviceHmac(hmac, AuthTokenMacInput(t), t.mac);
    if !verified then Err(KeyUserNotAuthenticated)
    else if !Overlaps(AsU32(t.authenticatorType.Code()), info.authType) then Err(KeyUserNotAuthenticated)
    else if !exists sid :: sid in info.secureIds && NamesUser(t, sid) then Err(KeyUserNotAuthenticated)
    else if now.Some? && timeoutSecs.Some? && now.value > t.timestamp + 1000 * timeoutSecs.value then Err(KeyUserNotAuthenticated)
    else if challenge.Some? && t.challenge != challenge.value then Err(KeyUserNotAuthenticated)
    else Ok(())
  }

  /** The check on `begin()`: returns what is left to check on later calls. */
  function CheckBeginAuth(hasClock: bool, hmac: DeviceHmac, info: Option<AuthInfo>, token: Option<HardwareAuthToken>,
                          now: I64): Result<Option<AuthInfo>> {
    if info.None? || info.value.timeoutSecs.None? then Ok(info)
    else if hasClock then
      if token.None? then Err(KeyUserNotAuthenticated)
      else
        var _ :- CheckAuthToken(hmac, token.value, info.value, Some(now), info.value.timeoutSecs, None);
        Ok(None)
    else if token.Some? then
      var _ :- CheckAuthToken(hmac, token.value, info.value, None, None, None);
      Ok(info)
    else Ok(info)
  }

  /** The check on later calls: returns whether later calls must be checked as well. */
  function CheckSubsequentAuth(hasClock: bool, hmac: DeviceHmac, handle: I64, required: Option<AuthInfo>,
                               token: Option<HardwareAuthToken>, timestamp: Option<TimeStampToken>): Result<bool> {
    if required.None? then Ok(false)
    else if token.None? then Err(KeyUserNotAuthenticated)
    else if required.value.timeoutSecs.Some? then
      if hasClock then Err(InvalidAuthorizationTimeout)
      else if timestamp.None? || timestamp.value.challenge != handle then Err(InvalidArgument)
      else
        var verified :- VerifyDeviceHmac(hmac, TimeStampMacInput(timestamp.value), timestamp.value.mac);
        if !verified then Err(InvalidArgument)
        else
          var _ :- CheckAuthToken(hmac, token.value, required.value, Some(timestamp.value.timestamp), required.value.timeoutSecs,
                                  Some(handle));
          Ok(false)
    else
      var _ :- CheckAuthToken(hmac, token.value, required.value, None, None, Some(handle));
      Ok(true)
  }

  // ---- Which authenticators suit a key ----

  function Pow2(k: nat): (p: nat)
    ensures p >= 1
  {
    if k == 0 then 1 else 2 * Pow2(k - 1)
  }

  /** A number below 2^w other than zero has a bit below `w`. */
  lemma {:induction false} SomeBit(n: nat, w: nat) returns (k: nat)
    requires 0 < n < Pow2(w)
    ensures k < w && Bit(n, k)
  {
    if n % 2 == 1 {
      k := 0;
    } else {
      k := SomeBit(n / 2, w - 1);
      k := k + 1;
    }
  }

  /** All the bits of 2^w - 1 are set. */
  lemma {:induction false} AllBits(w: nat, k: nat)
    requires k < w
    ensures Bit(Pow2(w) - 1, k)
  {
    if k > 0 {
      AllBits(w - 1, k - 1);
      assert (Pow2(w) - 1) / 2 == Pow2(w - 1) - 1;
    }
  }

  /** A number below 2^w has no bits from `w` on. */
  lemma {:induction false} NoHighBits(n: nat, w: nat, k: nat)
    requires n < Pow2(w) && w <= k
    ensures !Bit(n, k)
  {
    if k > 0 {
      NoHighBits(n / 2, if w == 0 then 0 else w - 1, k - 1);
    }
  }

  lemma Pow2Is32()
    ensures Pow2(32) == 0x1_0000_0000
  {
    assert Pow2(8) == 0x100;
    assert Pow2(16) == 0x1_0000;
    assert Pow2(24) == 0x100_0000;
  }

  /** Passwords suit keys whose type has the lowest bit, fingerprints those with the next one, any authenticator those
      with any bit, and no authenticator none. */
  lemma SuitableAuthenticators(authType: U32)
    ensures !Overlaps(AsU32(NoAuthenticator.Code()), authType)
    ensures Overlaps(AsU32(Password.Code()), authType) <==> authType % 2 == 1
    ensures Overlaps(AsU32(Fingerprint.Code()), authType) <==> authType / 2 % 2 == 1
    ensures Overlaps(AsU32(AnyAuthenticator.Code()), authType) <==> authType != 0
  {
    NoBit(AsU32(NoAuthenticator.Code()), authType);
    assert Pow2(1) == 2 && Pow2(2) == 4;
    OneBit(1, 0, authType);
    assert Bit(2, 1) == Bit(1, 0);
    OneBit(2, 1, authType);
    assert Bit(authType, 1) == Bit(authType / 2, 0);
    EveryBit(AsU32(AnyAuthenticator.Code()), authType);
  }

  lemma NoBit(n: U32, m: U32)
    requires n == 0
    ensures !Overlaps(n, m)
  {
    forall k | 0 <= k < 32 ensures !Bit(n, k) { NoHighBits(n, 0, k); }
  }

  /** A number with one bit overlaps those that have it. */
  lemma OneBit(n: U32, j: nat, m: U32)
    requires j < 32 && n < Pow2(j + 1) && Bit(n, j) && forall k :: 0 <= k < j ==> !Bit(n, k)
    ensures Overlaps(n, m) <==> Bit(m, j)
  {
    forall k | j < k < 32 ensures !Bit(n, k) { NoHighBits(n, j + 1, k); }
  }

  lemma EveryBit(n: U32, m: U32)
    requires n == 0xffff_ffff
    ensures Overlaps(n, m) <==> m != 0
  {
    Pow2Is32();
    if m == 0 {
      forall k | 0 <= k < 32 ensures !Bit(m, k) { NoHighBits(m, 0, k); }
    } else {
      var k := SomeBit(m, 32);
      AllBits(32, k);
      assert Bit(n, k);
    }
  }

  /** When a token is accepted, said of its fields: it is authentic, its authenticator suits the key, one of the key's
      secure IDs is its user or its authenticator, it is in time if there is a timeout to check, and it is for the
      challenge if there is one. */
  lemma TokenPassesExactly(hmac: DeviceHmac, t: HardwareAuthToken, info: AuthInfo, now: Option<I64>, timeoutSecs: Option<U32>,
                           challenge: Option<I64>)
    ensures CheckAuthToken(hmac, t, info, now, timeoutSecs, challenge).Ok? <==>
            && hmac.Some? && hmac.value(AuthTokenMacInput(t)) == t.mac
            && (match t.authenticatorType
                case NoAuthenticator => false
                case Password => info.authType % 2 == 1
                case Fingerprint => info.authType / 2 % 2 == 1
                case AnyAuthenticator => info.authType != 0)
            && (exists sid :: sid in info.secureIds && (AsU64(t.userId) == sid || AsU64(t.authenticatorId) == sid))
            && (now.Some? && timeoutSecs.Some? ==> now.value - t.timestamp <= 1000 * timeoutSecs.value)
            && (challenge.Some? ==> challenge.value == t.challenge)
  {
    SuitableAuthenticators(info.authType);
    assert forall sid: U64 :: NamesUser(t, sid) <==> AsU64(t.userId) == sid || AsU64(t.authenticatorId) == sid;
  }

  // ---- What a passed check means ----

  /** The token is authentic, of a suitable type and for one of the key's users. */
  ghost predicate ValidToken(hmac: DeviceHmac, t: HardwareAuthToken, info: AuthInfo) {
    && hmac.Some? && t.mac == hmac.value(AuthTokenMacInput(t))
    && Overlaps(AsU32(t.authenticatorType.Code()), info.authType)
    && exists sid :: sid in info.secureIds && NamesUser(t, sid)
  }

  ghost predicate Fresh(t: HardwareAuthToken, now: I64, timeoutSecs: U32) {
    now <= t.timestamp + 1000 * timeoutSecs
  }

  /** A per-call token made for this operation. */
  ghost predicate TokenForOperation(hmac: DeviceHmac, token: Option<HardwareAuthToken>, info: AuthInfo, handle: I64) {
    token.Some? && ValidToken(hmac, token.value, info) && token.value.challenge == handle
  }

  /** A token for this operation that an authentic timestamp for this operation shows to be in time. */
  ghost predicate TimedTokenForOperation(hmac: DeviceHmac, token: Option<HardwareAuthToken>, timestamp: Option<TimeStampToken>,
                                         info: AuthInfo, handle: I64) {
    && TokenForOperation(hmac, token, info, handle)
    && timestamp.Some? && timestamp.value.challenge == handle
    && timestamp.value.mac == hmac.value(TimeStampMacInput(timestamp.value))
    && info.timeoutSecs.Some? && Fresh(token.value, timestamp.value.timestamp, info.timeoutSecs.value)
  }

  /** Later calls are let through exactly when they carry what the key demands; they need no further check
      exactly if nothing was demanded or a timeout has now been checked. */
  lemma SubsequentAuthExact(hasClock: bool, hmac: DeviceHmac, handle: I64, required: Option<AuthInfo>,
                            token: Option<HardwareAuthToken>, timestamp: Option<TimeStampToken>)
    ensures CheckSubsequentAuth(hasClock, hmac, handle, required, token, timestamp).Ok? <==>
            || required.None?
            || (required.value.timeoutSecs.None? && TokenForOperation(hmac, token, required.value, handle))
            || (required.value.timeoutSecs.Some? && !hasClock
                && TimedTokenForOperation(hmac, token, timestamp, required.value, handle))
    ensures var r := CheckSubsequentAuth(hasClock, hmac, handle, required, token, timestamp);
            r.Ok? ==> (r.value <==> required.Some? && required.value.timeoutSecs.None?)
  {
  }

  /** `begin()` passes exactly if there is no timeout, if a clock shows a valid token to be in time, or if,
      without a clock, no invalid token is presented; it leaves everything to later calls unless the clock
      was consulted, and then nothing. */
  lemma BeginAuthExact(hasClock: bool, hmac: DeviceHmac, info: Option<AuthInfo>, token: Option<HardwareAuthToken>, now: I64)
    ensures var r := CheckBeginAuth(hasClock, hmac, info, token, now);
            && (r.Ok? <==>
                  || info.None? || info.value.timeoutSecs.None?
                  || (hasClock && token.Some? && ValidToken(hmac, token.value, info.value)
                      && Fresh(token.value, now, info.value.timeoutSecs.value))
                  || (!hasClock && (token.Some? ==> ValidToken(hmac, token.value, info.value))))
            && (r.Ok? ==> r.value == if info.Some? && info.value.timeoutSecs.Some? && hasClock then None else info)
  {
  }
}
