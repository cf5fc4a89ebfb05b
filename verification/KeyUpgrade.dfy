/** `keyblob_parse_decrypt` (ta/src/lib.rs) and `upgrade_key` (ta/src/keys.rs) end to end:
    decryption, version checks, upgrade and re-encryption. */
module KeyUpgrade {
  import opened Base
  import opened KeyParams
  import opened Tags
  import opened Versions
  import opened KekInfo
  import opened KeyMaterials
  import opened SlotSpec
  import opened SlotManager
  import opened Keyblob

  /** The parts of the TA that stay fixed while a key is used and upgraded. */
  datatype Ta = Ta(
    platform: Platform, rot: Option<Bytes>, rootKek: Bytes -> RootKey, kekContext: Bytes, crypto: BlobCrypto)

  /** A keyblob as the parser classifies it: current format, or a convertible legacy key. */
  datatype KeyInput = CurrentFormat(blob: EncryptedKeyBlob) | LegacyFormat(converted: PlaintextKeyBlob)

  function OctetsOf(t: OctetsTag): KeyParam -> Option<Bytes> {
    (p: KeyParam) => if p.Octets? && p.octetsTag == t then Some(p.bytes) else None
  }

  /** A parameter that occurs exactly once is hidden input; absent or repeated ones are left out. */
  function HiddenOctets(params: seq<KeyParam>, t: OctetsTag): seq<KeyParam> {
    match GetOptTagValue(params, OctetsOf(t), InvalidTag)
    case Ok(Some(b)) => [Octets(t, b)]
    case _ => []
  }

  function Hidden(params: seq<KeyParam>, rot: Bytes): seq<KeyParam> {
    HiddenOctets(params, ApplicationId) + HiddenOctets(params, ApplicationData) + [Octets(RootOfTrust, rot)]
  }

  function ParseDecryptBacklevel(ta: Ta, mgr: Option<SlotState>, input: KeyInput, params: seq<KeyParam>): Result<PlaintextKeyBlob> {
    match input
    case LegacyFormat(_) => Err(KeyRequiresUpgrade)
    case CurrentFormat(blob) =>
      if ta.rot.None? then Err(HardwareNotYetAvailable)
      else Keyblob.Decrypt(mgr, ta.crypto, ta.rootKek(blob.kekContext), blob, Hidden(params, ta.rot.value))
  }

  function ParseDecrypt(ta: Ta, mgr: Option<SlotState>, input: KeyInput, params: seq<KeyParam>): Result<PlaintextKeyBlob> {
    var plain :- ParseDecryptBacklevel(ta, mgr, input, params);
    var _ :- CheckVersions(ta.platform, plain.characteristics);
    Ok(plain)
  }

  /** The key to upgrade, and whether a new blob must be emitted regardless of versions. */
  function KeyToUpgrade(ta: Ta, mgr: Option<SlotState>, input: KeyInput, params: seq<KeyParam>): Result<(PlaintextKeyBlob, bool)> {
    match input
    case LegacyFormat(converted) => Ok((converted, true))
    case CurrentFormat(_) =>
      var plain :- ParseDecryptBacklevel(ta, mgr, input, params);
      Ok((plain, false))
  }

  function Reencryption(ta: Ta, plain: PlaintextKeyBlob, params: seq<KeyParam>, rot: Bytes, draws: Draws, faults: AllocFaults): EncryptArgs {
    EncryptArgs(ta.platform.level, ta.crypto, draws, ta.rootKek(ta.kekContext), ta.kekContext, plain, Hidden(params, rot), faults)
  }

  /** `None` stands for the empty reply: the existing keyblob can still be used. */
  function UpgradeKeySpec(ta: Ta, mgr: Option<SlotState>, input: KeyInput, params: seq<KeyParam>, draws: Draws,
                          faults: AllocFaults): (Option<SlotState>, Result<Option<EncryptedKeyBlob>>) {
    match KeyToUpgrade(ta, mgr, input, params)
    case Err(e) => (mgr, Err(e))
    case Ok((plain, forced)) =>
      match UpgradeChars(ta.platform, plain.characteristics)
      case Err(e) => (mgr, Err(e))
      case Ok((chars, changed)) =>
        if !forced && !changed then (mgr, Ok(None))
        else if ta.rot.None? then (mgr, Err(HardwareNotYetAvailable))
        else
          var (mgr', r) := EncryptSpec(mgr, Reencryption(ta, plain.(characteristics := chars), params, ta.rot.value, draws, faults));
          (mgr', match r { case Ok(blob) => Ok(Some(blob)) case Err(e) => Err(e) })
  }

  method UpgradeKey(ta: Ta, mgr: InMemorySlotManager?, input: KeyInput, params: seq<KeyParam>, draws: Draws,
                    faults: AllocFaults) returns (r: Result<Option<EncryptedKeyBlob>>)
    modifies if mgr == null then {} else {mgr, mgr.slots}
    ensures (StateOf(mgr), r) == UpgradeKeySpec(ta, old(StateOf(mgr)), input, params, draws, faults)
  {
    var key := KeyToUpgrade(ta, StateOf(mgr), input, params);
    if key.Err? {
      return Err(key.error);
    }
    var plain, modified := key.value.0, key.value.1;
    var upgraded := Upgrade(ta.platform, plain.characteristics);
    if upgraded.Err? {
      return Err(upgraded.error);
    }
    modified := modified || upgraded.value.1;
    if !modified {
      return Ok(None);
    }
    if ta.rot.None? {
      return Err(HardwareNotYetAvailable);
    }
    var blob := Keyblob.Encrypt(mgr, Reencryption(ta, plain.(characteristics := upgraded.value.0), params, ta.rot.value, draws, faults));
    r := match blob { case Ok(b) => Ok(Some(b)) case Err(e) => Err(e) };
  }

  /** A non-empty reply comes from one successful encryption of the upgraded key. */
  lemma UpgradeShape(ta: Ta, mgr: Option<SlotState>, input: KeyInput, params: seq<KeyParam>, draws: Draws, faults: AllocFaults)
    returns (plain: PlaintextKeyBlob, chars: seq<KeyCharacteristics>, a: EncryptArgs)
    requires var r := UpgradeKeySpec(ta, mgr, input, params, draws, faults).1; r.Ok? && r.value.Some?
    ensures KeyToUpgrade(ta, mgr, input, params).Ok? && KeyToUpgrade(ta, mgr, input, params).value.0 == plain
    ensures UpgradeChars(ta.platform, plain.characteristics).Ok?
    ensures chars == UpgradeChars(ta.platform, plain.characteristics).value.0
    ensures ta.rot.Some? && a == Reencryption(ta, plain.(characteristics := chars), params, ta.rot.value, draws, faults)
    ensures EncryptSpec(mgr, a).1.Ok?
    ensures UpgradeKeySpec(ta, mgr, input, params, draws, faults)
            == (EncryptSpec(mgr, a).0, Ok(Some(EncryptSpec(mgr, a).1.value)))
  {
    plain := KeyToUpgrade(ta, mgr, input, params).value.0;
    chars := UpgradeChars(ta.platform, plain.characteristics).value.0;
    a := Reencryption(ta, plain.(characteristics := chars), params, ta.rot.value, draws, faults);
  }

  /** What a successful encryption says about its input and output. */
  lemma EncryptShape(mgr: Option<SlotState>, a: EncryptArgs)
    requires EncryptSpec(mgr, a).1.Ok?
    ensures CharacteristicsAt(a.plain.characteristics, a.level).Ok?
    ensures EncryptSpec(mgr, a).1.value.kekContext == a.kekContext
  {
    var _ := SealedWith(mgr, a);
  }

  lemma KeyToUpgradeWellFormed(ta: Ta, mgr: Option<SlotState>, input: KeyInput, params: seq<KeyParam>)
    requires KeyToUpgrade(ta, mgr, input, params).Ok?
    requires input.LegacyFormat? ==> WellFormed(input.converted.keyMaterial)
    ensures WellFormed(KeyToUpgrade(ta, mgr, input, params).value.0.keyMaterial)
  {
    if input.CurrentFormat? {
      DecryptedIsWellFormed(mgr, ta.crypto, ta.rootKek(input.blob.kekContext), input.blob, Hidden(params, ta.rot.value));
    }
  }

  /** The blob an upgrade returns is accepted by the version-checking parser, with the upgraded
      characteristics and the same key, and stays accepted while its slot is spared. */
  lemma UpgradedBlobParses(ta: Ta, mgr: Option<SlotState>, input: KeyInput, params: seq<KeyParam>, draws: Draws,
                           faults: AllocFaults, ops: seq<SlotOp>)
    requires OpensWhatItSeals(ta.crypto)
    requires var (m, r) := UpgradeKeySpec(ta, mgr, input, params, draws, faults);
             && r.Ok? && r.value.Some?
             && (input.LegacyFormat? ==> WellFormed(input.converted.keyMaterial))
             && (m.Some? ==> ValidOps(ops) && Spares(ops, r.value.value.slot))
    ensures var (m, r) := UpgradeKeySpec(ta, mgr, input, params, draws, faults);
            var later := if m.Some? then Some(Run(m.value, ops)) else None;
            var plain := KeyToUpgrade(ta, mgr, input, params).value.0;
            ParseDecrypt(ta, later, CurrentFormat(r.value.value), params)
              == Ok(plain.(characteristics := UpgradeChars(ta.platform, plain.characteristics).value.0))
  {
    var plain, chars, a := UpgradeShape(ta, mgr, input, params, draws, faults);
    EncryptShape(mgr, a);
    KeyToUpgradeWellFormed(ta, mgr, input, params);
    DecryptUndoesEncrypt(mgr, a, ops);
    UpgradePassesChecker(ta.platform, plain.characteristics);
  }

  /** A blob the parser accepts upgrades to the empty reply and touches no slot. */
  lemma AcceptedBlobNeedsNoUpgrade(ta: Ta, mgr: Option<SlotState>, input: KeyInput, params: seq<KeyParam>, draws: Draws,
                                   faults: AllocFaults)
    requires ParseDecrypt(ta, mgr, input, params).Ok?
    ensures UpgradeKeySpec(ta, mgr, input, params, draws, faults) == (mgr, Ok(None))
  {
    CheckedNeedsNoUpgrade(ta.platform, ParseDecryptBacklevel(ta, mgr, input, params).value.characteristics);
  }

  /** The lists at the TA's level are all up to date. */
  ghost predicate AllUpToDate(pl: Platform, cs: seq<KeyCharacteristics>) {
    forall i :: 0 <= i < |cs| && cs[i].securityLevel == pl.level ==> UpToDate(pl, cs[i].authorizations)
  }

  lemma FirstAndRest(pl: Platform, cs: seq<KeyCharacteristics>)
    requires cs != []
    ensures AllUpToDate(pl, cs) <==>
            (cs[0].securityLevel == pl.level ==> UpToDate(pl, cs[0].authorizations)) && AllUpToDate(pl, cs[1..])
  {
    var rest := cs[1..];
    assert forall i :: 0 <= i < |rest| ==> rest[i] == cs[i + 1];
    if AllUpToDate(pl, rest) {
      forall i | 1 <= i < |cs| && cs[i].securityLevel == pl.level ensures UpToDate(pl, cs[i].authorizations) {
        assert rest[i - 1] == cs[i];
      }
    }
  }

  lemma {:induction false} ChangedExactly(pl: Platform, cs: seq<KeyCharacteristics>)
    requires UpgradeChars(pl, cs).Ok?
    ensures UpgradeChars(pl, cs).value.1 <==> !AllUpToDate(pl, cs)
  {
    if cs != [] {
      FirstAndRest(pl, cs);
      UpgradeMeansUpToDate(pl, cs[0].authorizations);
      ChangedExactly(pl, cs[1..]);
    }
  }

  lemma {:induction false} UpToDateUpgrades(pl: Platform, cs: seq<KeyCharacteristics>)
    requires AllUpToDate(pl, cs)
    ensures UpgradeChars(pl, cs).Ok?
  {
    if cs != [] {
      FirstAndRest(pl, cs);
      UpToDateUpgrades(pl, cs[1..]);
      if cs[0].securityLevel == pl.level {
        CheckMeansUpToDate(pl, cs[0].authorizations);
        CheckedUpgradesToSelf(pl, cs[0].authorizations);
      }
    }
  }

  /** The reply is empty exactly for a key in the current format that decrypts and is up to date; a legacy key always
      gets a new blob. */
  lemma EmptyReplyExactly(ta: Ta, mgr: Option<SlotState>, input: KeyInput, params: seq<KeyParam>, draws: Draws, faults: AllocFaults)
    ensures UpgradeKeySpec(ta, mgr, input, params, draws, faults).1 == Ok(None) <==>
            && input.CurrentFormat? && ParseDecryptBacklevel(ta, mgr, input, params).Ok?
            && AllUpToDate(ta.platform, ParseDecryptBacklevel(ta, mgr, input, params).value.characteristics)
  {
    var key := KeyToUpgrade(ta, mgr, input, params);
    if key.Ok? {
      var cs := key.value.0.characteristics;
      if UpgradeChars(ta.platform, cs).Ok? {
        ChangedExactly(ta.platform, cs);
      } else if AllUpToDate(ta.platform, cs) {
        UpToDateUpgrades(ta.platform, cs);
      }
    }
  }

  /** Upgrading an upgraded key changes nothing more. */
  lemma UpgradeTwice(ta: Ta, mgr: Option<SlotState>, input: KeyInput, params: seq<KeyParam>, draws: Draws, faults: AllocFaults,
                     draws': Draws, faults': AllocFaults)
    requires OpensWhatItSeals(ta.crypto)
    requires var (m, r) := UpgradeKeySpec(ta, mgr, input, params, draws, faults);
             && r.Ok? && r.value.Some?
             && (input.LegacyFormat? ==> WellFormed(input.converted.keyMaterial))
    ensures var (m, r) := UpgradeKeySpec(ta, mgr, input, params, draws, faults);
            UpgradeKeySpec(ta, m, CurrentFormat(r.value.value), params, draws', faults') == (m, Ok(None))
  {
    var (m, r) := UpgradeKeySpec(ta, mgr, input, params, draws, faults);
    UpgradedBlobParses(ta, mgr, input, params, draws, faults, []);
    AcceptedBlobNeedsNoUpgrade(ta, m, CurrentFormat(r.value.value), params, draws', faults');
  }
}
