/** Who can use a key (common/src/tag.rs, common/src/keyblob.rs, ta/src/lib.rs): application ID, application data and root
    of trust are hidden parameters of its encryption, so that it decrypts only where they are the same. */
module KeyBinding {
  import opened Base
  import opened KeyParams
  import opened Tags
  import opened KekInfo
  import opened KeyMaterials
  import opened SlotSpec
  import opened Keyblob
  import opened KeyDeletion
  import opened KeyUpgrade
  import opened Versions

  // ---- What the hidden parameters say ----

  lemma OctetsLookup(ps: seq<KeyParam>, t: OctetsTag)
    ensures forall b: Bytes :: GetOptTagValue(ps, OctetsOf(t), InvalidTag) == Ok(Some(b)) <==> Sole(ps, Octets(t, b))
    ensures GetOptTagValue(ps, OctetsOf(t), InvalidTag) == Ok(None) <==> Lacks(ps, OfOctets(t))
  {
    LookupExact(ps, OctetsOf(t), OfOctets(t), (b: Bytes) => Octets(t, b), InvalidTag);
  }

  /** The list has this tag exactly once on both sides with the same value, or not exactly once on either side. */
  ghost predicate SameSole(ps: seq<KeyParam>, ps': seq<KeyParam>, t: OctetsTag) {
    forall b: Bytes :: Sole(ps, Octets(t, b)) <==> Sole(ps', Octets(t, b))
  }

  /** Both callers present the same, or nothing. */
  ghost predicate SameGiven(ps: seq<KeyParam>, ps': seq<KeyParam>, t: OctetsTag) {
    forall b: Bytes :: Octets(t, b) in ps <==> Octets(t, b) in ps'
  }

  lemma HiddenOctetsExact(ps: seq<KeyParam>, t: OctetsTag)
    ensures forall b: Bytes :: HiddenOctets(ps, t) == [Octets(t, b)] <==> Sole(ps, Octets(t, b))
    ensures HiddenOctets(ps, t) == [] <==> forall b: Bytes :: !Sole(ps, Octets(t, b))
    ensures HiddenOctets(ps, t) == [] || exists b: Bytes :: HiddenOctets(ps, t) == [Octets(t, b)]
  {
    OctetsLookup(ps, t);
  }

  lemma SameOctetsExact(ps: seq<KeyParam>, ps': seq<KeyParam>, t: OctetsTag)
    ensures HiddenOctets(ps, t) == HiddenOctets(ps', t) <==> SameSole(ps, ps', t)
  {
    HiddenOctetsExact(ps, t);
    HiddenOctetsExact(ps', t);
  }

  lemma HiddenParts(ps: seq<KeyParam>, rot: Bytes, ps': seq<KeyParam>, rot': Bytes)
    requires Hidden(ps, rot) == Hidden(ps', rot')
    ensures rot == rot' && HiddenOctets(ps, ApplicationId) == HiddenOctets(ps', ApplicationId)
    ensures HiddenOctets(ps, ApplicationData) == HiddenOctets(ps', ApplicationData)
  {
    var h, h' := Hidden(ps, rot), Hidden(ps', rot');
    HiddenOctetsExact(ps, ApplicationId);
    HiddenOctetsExact(ps', ApplicationId);
    HiddenOctetsExact(ps, ApplicationData);
    HiddenOctetsExact(ps', ApplicationData);
    assert h[|h| - 1] == Octets(RootOfTrust, rot) && h'[|h'| - 1] == Octets(RootOfTrust, rot');
    var id, id', data, data' := HiddenOctets(ps, ApplicationId), HiddenOctets(ps', ApplicationId),
      HiddenOctets(ps, ApplicationData), HiddenOctets(ps', ApplicationData);
    assert id != [] ==> h[0] == id[0];
    assert id' != [] ==> h'[0] == id'[0];
    assert id == [] && data != [] ==> h[0] == data[0];
    assert id' == [] && data' != [] ==> h'[0] == data'[0];
    assert id == id';
    assert h[|id|..|h| - 1] == data && h'[|id|..|h| - 1] == data';
  }

  /** Hidden parameters are the same exactly if root of trust, application ID and application data are, where a
      repeated parameter counts as none. */
  lemma HiddenExact(ps: seq<KeyParam>, rot: Bytes, ps': seq<KeyParam>, rot': Bytes)
    ensures Hidden(ps, rot) == Hidden(ps', rot') <==>
            rot == rot' && SameSole(ps, ps', ApplicationId) && SameSole(ps, ps', ApplicationData)
  {
    SameOctetsExact(ps, ps', ApplicationId);
    SameOctetsExact(ps, ps', ApplicationData);
    if Hidden(ps, rot) == Hidden(ps', rot') {
      HiddenParts(ps, rot, ps', rot');
    }
  }

  ghost predicate GivenOnce(ps: seq<KeyParam>, t: OctetsTag) { AtMostOne(ps, OfOctets(t)) }

  lemma SoleIfGiven(ps: seq<KeyParam>, t: OctetsTag, b: Bytes)
    requires GivenOnce(ps, t)
    ensures Sole(ps, Octets(t, b)) <==> Octets(t, b) in ps
  {
    if Octets(t, b) in ps {
      var p :| ParamTag(p) == OfOctets(t) && Sole(ps, p);
      var i :| SoleAt(ps, p, i);
    }
    if Sole(ps, Octets(t, b)) {
      var i :| SoleAt(ps, Octets(t, b), i);
    }
  }

  lemma SameIfGivenOnce(ps: seq<KeyParam>, ps': seq<KeyParam>, t: OctetsTag)
    requires GivenOnce(ps, t) && GivenOnce(ps', t)
    ensures SameSole(ps, ps', t) <==> SameGiven(ps, ps', t)
  {
    forall b: Bytes
      ensures (Sole(ps, Octets(t, b)) <==> Octets(t, b) in ps) && (Sole(ps', Octets(t, b)) <==> Octets(t, b) in ps')
    {
      SoleIfGiven(ps, t, b);
      SoleIfGiven(ps', t, b);
    }
  }

  /** Neither is given twice. */
  ghost predicate Plain(ps: seq<KeyParam>) { GivenOnce(ps, ApplicationId) && GivenOnce(ps, ApplicationData) }

  /** So if nothing is repeated, the hidden parameters say exactly which values were given. */
  lemma HiddenSaysWhatIsGiven(ps: seq<KeyParam>, rot: Bytes, ps': seq<KeyParam>, rot': Bytes)
    requires Plain(ps) && Plain(ps')
    ensures Hidden(ps, rot) == Hidden(ps', rot') <==>
            rot == rot' && SameGiven(ps, ps', ApplicationId) && SameGiven(ps, ps', ApplicationData)
  {
    HiddenExact(ps, rot, ps', rot');
    SameIfGivenOnce(ps, ps', ApplicationId);
    SameIfGivenOnce(ps, ps', ApplicationData);
  }

  /** A value given twice has no effect. */
  lemma RepeatedIsNotHidden(t: OctetsTag, b: Bytes, rot: Bytes)
    ensures Hidden([Octets(t, b), Octets(t, b)], rot) == Hidden([], rot)
  {
    var twice := [Octets(t, b), Octets(t, b)];
    assert ParamTag(twice[0]) == ParamTag(twice[1]) == OfOctets(t);
    forall b': Bytes, t', i ensures !SoleAt(twice, Octets(t', b'), i) {
      assert 0 <= i < 2 ==> ParamTag(twice[1 - i]) == OfOctets(t);
    }
    HiddenExact(twice, rot, [], rot);
  }

  // ---- Who can open a key ----

  /** A key encrypted for a caller with `params`, on a TA with root of trust `rot`. */
  ghost predicate MadeFor(ta: Ta, mgr: Option<SlotState>, a: EncryptArgs, params: seq<KeyParam>, rot: Bytes) {
    && a.crypto == ta.crypto && a.hidden == Hidden(params, rot) && EncryptSpec(mgr, a).1.Ok?
    && ValidDraws(a.draws) && (mgr.Some? ==> Coherent(mgr.value))
    && SizedChars(a.plain.characteristics) && SizedParams(a.hidden)
  }

  /** The caller and the TA that open it are those it was made for. */
  ghost predicate SameOwner(ta: Ta, params: seq<KeyParam>, rot: Bytes, params': seq<KeyParam>) {
    && ta.rot == Some(rot)
    && SameSole(params, params', ApplicationId) && SameSole(params, params', ApplicationData)
  }

  /** With ideal primitives, whatever blob carries the ciphertext and in whatever state of the slots: it is parsed only
      for the owner. */
  lemma OnlyOwnerOpens(ta: Ta, mgr: Option<SlotState>, a: EncryptArgs, params: seq<KeyParam>, rot: Bytes, later: Option<SlotState>,
                       blob: EncryptedKeyBlob, params': seq<KeyParam>)
    requires Ideal(ta.crypto) && MadeFor(ta, mgr, a, params, rot) && (later.Some? ==> Coherent(later.value))
    requires blob.encryptedKeyMaterial == EncryptSpec(mgr, a).1.value.encryptedKeyMaterial
    requires ta.rot.Some? ==> SizedBlob(blob, Hidden(params', ta.rot.value))
    requires ParseDecryptBacklevel(ta, later, CurrentFormat(blob), params').Ok?
    ensures SameOwner(ta, params, rot, params')
  {
    CiphertextIsBound(mgr, a, later, ta.rootKek(blob.kekContext), blob, Hidden(params', ta.rot.value));
    HiddenExact(params, rot, params', ta.rot.value);
  }

  /** And the key's own blob is parsed exactly for the owner, as long as its slot is spared. */
  lemma OwnerOpensExactly(ta: Ta, mgr: Option<SlotState>, a: EncryptArgs, params: seq<KeyParam>, rot: Bytes, ops: seq<SlotOp>,
                          params': seq<KeyParam>)
    requires Ideal(ta.crypto) && OpensWhatItSeals(ta.crypto) && WellFormed(a.plain.keyMaterial) && MadeFor(ta, mgr, a, params, rot)
    requires a.root == ta.rootKek(a.kekContext)
    requires EncryptSpec(mgr, a).0.Some? ==> mgr.Some? && ValidOps(ops) && Spares(ops, EncryptSpec(mgr, a).1.value.slot)
    requires ta.rot.Some? ==> SizedParams(Hidden(params', ta.rot.value))
    ensures var (m, r) := EncryptSpec(mgr, a);
            var later := if m.Some? then Some(Run(m.value, ops)) else None;
            ParseDecryptBacklevel(ta, later, CurrentFormat(r.value), params').Ok? <==> SameOwner(ta, params, rot, params')
  {
    var (m, r) := EncryptSpec(mgr, a);
    var later := if m.Some? then Some(Run(m.value, ops)) else None;
    EncryptShape(mgr, a);
    SealedFields(mgr, a);
    if m.Some? {
      EncryptKeepsCoherent(mgr.value, a);
      RunKeepsCoherent(m.value, ops);
    }
    if SameOwner(ta, params, rot, params') {
      HiddenExact(params, rot, params', rot);
      DecryptUndoesEncrypt(mgr, a, ops);
    }
    if ParseDecryptBacklevel(ta, later, CurrentFormat(r.value), params').Ok? {
      OnlyOwnerOpens(ta, mgr, a, params, rot, later, r.value, params');
    }
  }

  lemma SealedFields(mgr: Option<SlotState>, a: EncryptArgs)
    requires EncryptSpec(mgr, a).1.Ok?
    ensures var blob := EncryptSpec(mgr, a).1.value;
            blob.characteristics == a.plain.characteristics && blob.keyDerivationInput == a.draws.derivation
  {
  }

  /** An upgraded key keeps its owner. */
  lemma UpgradeKeepsOwner(ta: Ta, mgr: Option<SlotState>, input: KeyInput, params: seq<KeyParam>, draws: Draws, faults: AllocFaults,
                          later: Option<SlotState>, params': seq<KeyParam>)
    requires Ideal(ta.crypto) && ValidDraws(draws) && (mgr.Some? ==> Coherent(mgr.value)) && (later.Some? ==> Coherent(later.value))
    requires ta.rot.Some? ==> SizedParams(Hidden(params, ta.rot.value)) && SizedParams(Hidden(params', ta.rot.value))
    requires var r := UpgradeKeySpec(ta, mgr, input, params, draws, faults).1;
             && r.Ok? && r.value.Some? && SizedChars(r.value.value.characteristics)
             && ParseDecryptBacklevel(ta, later, CurrentFormat(r.value.value), params').Ok?
    ensures SameSole(params, params', ApplicationId) && SameSole(params, params', ApplicationData)
  {
    var plain, chars, a := UpgradeShape(ta, mgr, input, params, draws, faults);
    SealedFields(mgr, a);
    OnlyOwnerOpens(ta, mgr, a, params, ta.rot.value, later, EncryptSpec(mgr, a).1.value, params');
  }
}
