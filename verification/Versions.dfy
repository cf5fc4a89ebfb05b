/** OS, vendor and boot versions bound into a key: the checker of `keyblob_parse_decrypt`
    (ta/src/lib.rs) and the rewriting in `upgrade_key` (ta/src/keys.rs). */
module Versions {
  import opened Base
  import opened KeyParams
  import opened Tags

  datatype HalInfo = HalInfo(osVersion: U32, osPatchlevel: U32, vendorPatchlevel: U32)

  /** What the TA knows about the platform; each part arrives after start-up. */
  datatype Platform = Platform(level: SecurityLevel, hal: Option<HalInfo>, bootPatchlevel: Option<U32>)

  /** The current value for a version parameter, when `p` is one and the value is known. */
  function Current(pl: Platform, p: KeyParam): Option<U32> {
    if !p.Uint? then None
    else
      match p.uintTag
      case OsVersion => if pl.hal.Some? then Some(pl.hal.value.osVersion) else None
      case OsPatchlevel => if pl.hal.Some? then Some(pl.hal.value.osPatchlevel) else None
      case VendorPatchlevel => if pl.hal.Some? then Some(pl.hal.value.vendorPatchlevel) else None
      case BootPatchlevel => pl.bootPatchlevel
      case _ => None
  }

  /** Moving to OS version zero is always allowed. */
  predicate ToZero(pl: Platform, p: KeyParam) {
    p.Uint? && p.uintTag == OsVersion && Current(pl, p) == Some(0)
  }

  function CheckParam(pl: Platform, p: KeyParam): Result<()> {
    match Current(pl, p)
    case None => Ok(())
    case Some(curr) =>
      if ToZero(pl, p) then (if p.u32 != 0 then Err(KeyRequiresUpgrade) else Ok(()))
      else if p.u32 < curr then Err(KeyRequiresUpgrade)
      else if p.u32 > curr then Err(InvalidKeyBlob)
      else Ok(())
  }

  /** The first failing parameter decides. */
  function CheckParams(pl: Platform, ps: seq<KeyParam>): Result<()> {
    if ps == [] then Ok(())
    else
      var _ :- CheckParam(pl, ps[0]);
      CheckParams(pl, ps[1..])
  }

  function CheckVersions(pl: Platform, chars: seq<KeyCharacteristics>): Result<()> {
    var ps :- CharacteristicsAt(chars, pl.level);
    CheckParams(pl, ps)
  }

  /** The upgraded parameter and whether it changed; versions ahead of the platform are refused. */
  function UpgradeParam(pl: Platform, p: KeyParam): Result<(KeyParam, bool)> {
    match Current(pl, p)
    case None => Ok((p, false))
    case Some(curr) =>
      if ToZero(pl, p) then Ok((p.(u32 := 0), p.u32 != 0))
      else if p.u32 < curr then Ok((p.(u32 := curr), true))
      else if p.u32 > curr then Err(InvalidArgument)
      else Ok((p, false))
  }

  function UpgradeParams(pl: Platform, ps: seq<KeyParam>): Result<(seq<KeyParam>, bool)> {
    if ps == [] then Ok(([], false))
    else
      var first :- UpgradeParam(pl, ps[0]);
      var rest :- UpgradeParams(pl, ps[1..]);
      Ok(([first.0] + rest.0, first.1 || rest.1))
  }

  function UpgradeOne(pl: Platform, c: KeyCharacteristics): Result<(KeyCharacteristics, bool)> {
    if c.securityLevel != pl.level then Ok((c, false))
    else
      var ps :- UpgradeParams(pl, c.authorizations);
      Ok((c.(authorizations := ps.0), ps.1))
  }

  function UpgradeChars(pl: Platform, cs: seq<KeyCharacteristics>): Result<(seq<KeyCharacteristics>, bool)> {
    if cs == [] then Ok(([], false))
    else
      var first :- UpgradeOne(pl, cs[0]);
      var rest :- UpgradeChars(pl, cs[1..]);
      Ok(([first.0] + rest.0, first.1 || rest.1))
  }

  // ---- The upgrade loops ----

  lemma {:induction false} UpgradeParamsSnoc(pl: Platform, ps: seq<KeyParam>, p: KeyParam)
    ensures UpgradeParams(pl, ps + [p]) ==
            match UpgradeParams(pl, ps)
            case Err(e) => Err(e)
            case Ok((out, changed)) =>
              match UpgradeParam(pl, p)
              case Err(e) => Err(e)
              case Ok((q, c)) => Ok((out + [q], changed || c))
  {
    if ps == [] {
      assert ps + [p] == [p] && [p][1..] == [];
      if UpgradeParam(pl, p).Ok? {
        var q := UpgradeParam(pl, p).value.0;
        assert [q] + [] == [] + [q];
      }
    } else {
      assert (ps + [p])[1..] == ps[1..] + [p];
      UpgradeParamsSnoc(pl, ps[1..], p);
      if UpgradeParams(pl, ps).Ok? && UpgradeParam(pl, p).Ok? {
        var f, r, q := UpgradeParam(pl, ps[0]).value.0, UpgradeParams(pl, ps[1..]).value.0, UpgradeParam(pl, p).value.0;
        assert [f] + (r + [q]) == [f] + r + [q];
      }
    }
  }

  lemma {:induction false} UpgradeCharsSnoc(pl: Platform, cs: seq<KeyCharacteristics>, c: KeyCharacteristics)
    ensures UpgradeChars(pl, cs + [c]) ==
            match UpgradeChars(pl, cs)
            case Err(e) => Err(e)
            case Ok((out, changed)) =>
              match UpgradeOne(pl, c)
              case Err(e) => Err(e)
              case Ok((d, m)) => Ok((out + [d], changed || m))
  {
    if cs == [] {
      assert cs + [c] == [c] && [c][1..] == [];
      if UpgradeOne(pl, c).Ok? {
        var q := UpgradeOne(pl, c).value.0;
        assert [q] + [] == [] + [q];
      }
    } else {
      assert (cs + [c])[1..] == cs[1..] + [c];
      UpgradeCharsSnoc(pl, cs[1..], c);
      if UpgradeChars(pl, cs).Ok? && UpgradeOne(pl, c).Ok? {
        var f, r, q := UpgradeOne(pl, cs[0]).value.0, UpgradeChars(pl, cs[1..]).value.0, UpgradeOne(pl, c).value.0;
        assert [f] + (r + [q]) == [f] + r + [q];
      }
    }
  }

  /** An error anywhere is the error of the whole. */
  lemma {:induction false} UpgradeParamsErr(pl: Platform, ps: seq<KeyParam>, i: nat)
    requires i <= |ps| && UpgradeParams(pl, ps[..i]).Err?
    ensures UpgradeParams(pl, ps) == UpgradeParams(pl, ps[..i])
    decreases |ps| - i
  {
    if i == |ps| {
      assert ps[..i] == ps;
    } else {
      assert ps[..i + 1] == ps[..i] + [ps[i]];
      UpgradeParamsSnoc(pl, ps[..i], ps[i]);
      UpgradeParamsErr(pl, ps, i + 1);
    }
  }

  lemma {:induction false} UpgradeCharsErr(pl: Platform, cs: seq<KeyCharacteristics>, i: nat)
    requires i <= |cs| && UpgradeChars(pl, cs[..i]).Err?
    ensures UpgradeChars(pl, cs) == UpgradeChars(pl, cs[..i])
    decreases |cs| - i
  {
    if i == |cs| {
      assert cs[..i] == cs;
    } else {
      assert cs[..i + 1] == cs[..i] + [cs[i]];
      UpgradeCharsSnoc(pl, cs[..i], cs[i]);
      UpgradeCharsErr(pl, cs, i + 1);
    }
  }

  /** The inner loop: rewrite the parameters of one list in place. */
  method UpgradeList(pl: Platform, ps: seq<KeyParam>) returns (r: Result<(seq<KeyParam>, bool)>)
    ensures r == UpgradeParams(pl, ps)
  {
    var out := ps;
    var modified := false;
    for i := 0 to |ps|
      invariant |out| == |ps| && forall k :: i <= k < |ps| ==> out[k] == ps[k]
      invariant UpgradeParams(pl, ps[..i]) == Ok((out[..i], modified))
    {
      assert ps[..i + 1] == ps[..i] + [ps[i]];
      UpgradeParamsSnoc(pl, ps[..i], ps[i]);
      var step := UpgradeParam(pl, out[i]);
      if step.Err? {
        UpgradeParamsErr(pl, ps, i + 1);
        return Err(step.error);
      }
      ghost var before := out[..i];
      out := out[i := step.value.0];
      assert out[..i + 1] == before + [step.value.0];
      modified := modified || step.value.1;
    }
    assert ps[..|ps|] == ps && out[..|ps|] == out;
    r := Ok((out, modified));
  }

  /** The outer loop of `upgrade_key`: every list at the TA's security level. */
  method Upgrade(pl: Platform, cs: seq<KeyCharacteristics>) returns (r: Result<(seq<KeyCharacteristics>, bool)>)
    ensures r == UpgradeChars(pl, cs)
  {
    var out := cs;
    var modified := false;
    for i := 0 to |cs|
      invariant |out| == |cs| && forall k :: i <= k < |cs| ==> out[k] == cs[k]
      invariant UpgradeChars(pl, cs[..i]) == Ok((out[..i], modified))
    {
      assert cs[..i + 1] == cs[..i] + [cs[i]];
      UpgradeCharsSnoc(pl, cs[..i], cs[i]);
      ghost var before := out[..i];
      if out[i].securityLevel == pl.level {
        var list := UpgradeList(pl, out[i].authorizations);
        if list.Err? {
          UpgradeCharsErr(pl, cs, i + 1);
          return Err(list.error);
        }
        out := out[i := out[i].(authorizations := list.value.0)];
        modified := modified || list.value.1;
      }
      assert out[..i + 1] == before + [out[i]];
    }
    assert cs[..|cs|] == cs && out[..|cs|] == out;
    r := Ok((out, modified));
  }

  // ---- Which value belongs to which tag ----

  /** Every version that can be compared is that of the platform: OS version, OS patchlevel and vendor patchlevel once
      the HAL has told them, the boot patchlevel once the bootloader has. */
  predicate UpToDate(pl: Platform, ps: seq<KeyParam>) {
    && (pl.hal.Some? ==>
          && (forall v: U32 :: Uint(OsVersion, v) in ps ==> v == pl.hal.value.osVersion)
          && (forall v: U32 :: Uint(OsPatchlevel, v) in ps ==> v == pl.hal.value.osPatchlevel)
          && (forall v: U32 :: Uint(VendorPatchlevel, v) in ps ==> v == pl.hal.value.vendorPatchlevel))
    && (pl.bootPatchlevel.Some? ==> forall v: U32 :: Uint(BootPatchlevel, v) in ps ==> v == pl.bootPatchlevel.value)
  }

  /** There is a version with this tag later than `now`. */
  ghost predicate Later(ps: seq<KeyParam>, t: UintTag, now: U32) { exists v: U32 :: Uint(t, v) in ps && v > now }

  /** Some version is later than the platform's, not counting OS versions on a platform whose OS version is zero. */
  ghost predicate FromTheFuture(pl: Platform, ps: seq<KeyParam>) {
    || (pl.hal.Some? && pl.hal.value.osVersion != 0 && Later(ps, OsVersion, pl.hal.value.osVersion))
    || (pl.hal.Some? && Later(ps, OsPatchlevel, pl.hal.value.osPatchlevel))
    || (pl.hal.Some? && Later(ps, VendorPatchlevel, pl.hal.value.vendorPatchlevel))
    || (pl.bootPatchlevel.Some? && Later(ps, BootPatchlevel, pl.bootPatchlevel.value))
  }

  lemma FirstUpToDate(pl: Platform, ps: seq<KeyParam>)
    requires ps != []
    ensures UpToDate(pl, ps) <==> UpToDate(pl, [ps[0]]) && UpToDate(pl, ps[1..])
    ensures FromTheFuture(pl, ps) <==> FromTheFuture(pl, [ps[0]]) || FromTheFuture(pl, ps[1..])
  {
    assert ps == [ps[0]] + ps[1..];
  }

  lemma CheckParamMeans(pl: Platform, p: KeyParam)
    ensures CheckParam(pl, p).Ok? <==> UpToDate(pl, [p])
    ensures CheckParam(pl, p) == Err(InvalidKeyBlob) <==> FromTheFuture(pl, [p])
  {
    assert p in [p];
  }

  /** The checker accepts exactly what is up to date. */
  lemma {:induction false} CheckMeansUpToDate(pl: Platform, ps: seq<KeyParam>)
    ensures CheckParams(pl, ps).Ok? <==> UpToDate(pl, ps)
    ensures CheckParams(pl, ps) == Err(InvalidKeyBlob) ==> FromTheFuture(pl, ps)
    ensures CheckParams(pl, ps).Err? && !FromTheFuture(pl, ps) ==> CheckParams(pl, ps) == Err(KeyRequiresUpgrade)
  {
    if ps != [] {
      FirstUpToDate(pl, ps);
      CheckParamMeans(pl, ps[0]);
      CheckMeansUpToDate(pl, ps[1..]);
    }
  }

  /** What becomes of a parameter: one of the four versions gets the platform's value if that is known, and anything
      else stays as it is. */
  predicate BroughtUpToDate(pl: Platform, p: KeyParam, q: KeyParam) {
    if p.Uint? && p.uintTag == OsVersion && pl.hal.Some? then q == Uint(OsVersion, pl.hal.value.osVersion)
    else if p.Uint? && p.uintTag == OsPatchlevel && pl.hal.Some? then q == Uint(OsPatchlevel, pl.hal.value.osPatchlevel)
    else if p.Uint? && p.uintTag == VendorPatchlevel && pl.hal.Some? then q == Uint(VendorPatchlevel, pl.hal.value.vendorPatchlevel)
    else if p.Uint? && p.uintTag == BootPatchlevel && pl.bootPatchlevel.Some? then q == Uint(BootPatchlevel, pl.bootPatchlevel.value)
    else q == p
  }

  /** An upgrade is refused exactly for versions from the future, and otherwise brings everything up to date. */
  lemma {:induction false} UpgradeMeansUpToDate(pl: Platform, ps: seq<KeyParam>)
    ensures UpgradeParams(pl, ps).Err? <==> FromTheFuture(pl, ps)
    ensures UpgradeParams(pl, ps).Err? ==> UpgradeParams(pl, ps) == Err(InvalidArgument)
    ensures UpgradeParams(pl, ps).Ok? ==>
              var (out, changed) := UpgradeParams(pl, ps).value;
              && |out| == |ps| && (forall i :: 0 <= i < |ps| ==> BroughtUpToDate(pl, ps[i], out[i]))
              && (changed <==> !UpToDate(pl, ps))
  {
    if ps != [] {
      FirstUpToDate(pl, ps);
      UpgradeParamMeans(pl, ps[0]);
      UpgradeMeansUpToDate(pl, ps[1..]);
    }
  }

  lemma UpgradeParamMeans(pl: Platform, p: KeyParam)
    ensures UpgradeParam(pl, p).Err? <==> FromTheFuture(pl, [p])
    ensures UpgradeParam(pl, p).Err? ==> UpgradeParam(pl, p) == Err(InvalidArgument)
    ensures UpgradeParam(pl, p).Ok? ==>
              BroughtUpToDate(pl, p, UpgradeParam(pl, p).value.0) && (UpgradeParam(pl, p).value.1 <==> !UpToDate(pl, [p]))
  {
    assert p in [p];
  }

  // ---- Checking and upgrading agree ----

  predicate Behind(pl: Platform, p: KeyParam) {
    Current(pl, p).Some? && (if ToZero(pl, p) then p.u32 != 0 else p.u32 < Current(pl, p).value)
  }

  predicate Ahead(pl: Platform, p: KeyParam) {
    Current(pl, p).Some? && !ToZero(pl, p) && p.u32 > Current(pl, p).value
  }

  /** `q` is `p` with at most its version moved forward to the platform's (or to OS version 0). */
  predicate Advances(pl: Platform, p: KeyParam, q: KeyParam) {
    if Behind(pl, p) then q == p.(u32 := Current(pl, p).value) else q == p
  }

  /** What an upgrade of a parameter list does: it is refused exactly when some version is ahead
      of the platform, otherwise it brings every version up to date and changes nothing else. */
  lemma {:induction false} UpgradeParamsExact(pl: Platform, ps: seq<KeyParam>)
    ensures UpgradeParams(pl, ps).Err? <==> exists i :: 0 <= i < |ps| && Ahead(pl, ps[i])
    ensures UpgradeParams(pl, ps).Ok? ==>
              var (out, changed) := UpgradeParams(pl, ps).value;
              && |out| == |ps|
              && (forall i :: 0 <= i < |ps| ==>
                    Advances(pl, ps[i], out[i]) && !Behind(pl, out[i]) && !Ahead(pl, out[i]))
              && (changed <==> out != ps)
  {
    if ps != [] {
      UpgradeParamsExact(pl, ps[1..]);
      assert ps == [ps[0]] + ps[1..];
    }
  }

  /** Index of the first version that does not match the platform, or the length of the list. */
  function FirstMismatch(pl: Platform, ps: seq<KeyParam>, from: nat): (i: nat)
    requires from <= |ps|
    ensures from <= i <= |ps|
    ensures forall j :: from <= j < i ==> !Behind(pl, ps[j]) && !Ahead(pl, ps[j])
    ensures i < |ps| ==> Behind(pl, ps[i]) || Ahead(pl, ps[i])
    decreases |ps| - from
  {
    if from == |ps| || Behind(pl, ps[from]) || Ahead(pl, ps[from]) then from
    else FirstMismatch(pl, ps, from + 1)
  }

  lemma {:induction false} CheckFrom(pl: Platform, ps: seq<KeyParam>, from: nat)
    requires from <= |ps|
    ensures var i := FirstMismatch(pl, ps, from);
            CheckParams(pl, ps[from..]) ==
              if i == |ps| then Ok(()) else if Behind(pl, ps[i]) then Err(KeyRequiresUpgrade) else Err(InvalidKeyBlob)
    decreases |ps| - from
  {
    if from < |ps| {
      assert ps[from..][1..] == ps[from + 1..];
      CheckFrom(pl, ps, from + 1);
    }
  }

  /** The checker accepts exactly the lists with no version behind or ahead; otherwise the first
      mismatch decides between asking for an upgrade and refusing the key. */
  lemma CheckParamsExact(pl: Platform, ps: seq<KeyParam>)
    ensures CheckParams(pl, ps).Ok? <==>
            forall i :: 0 <= i < |ps| ==> !Behind(pl, ps[i]) && !Ahead(pl, ps[i])
    ensures var i := FirstMismatch(pl, ps, 0);
            && (CheckParams(pl, ps) == Err(KeyRequiresUpgrade) <==> i < |ps| && Behind(pl, ps[i]))
            && (CheckParams(pl, ps) == Err(InvalidKeyBlob) <==> i < |ps| && Ahead(pl, ps[i]))
  {
    assert ps[0..] == ps;
    CheckFrom(pl, ps, 0);
  }

  /** An accepted list upgrades to itself, unmodified. */
  lemma CheckedUpgradesToSelf(pl: Platform, ps: seq<KeyParam>)
    requires CheckParams(pl, ps).Ok?
    ensures UpgradeParams(pl, ps) == Ok((ps, false))
  {
    CheckParamsExact(pl, ps);
    UpgradeParamsExact(pl, ps);
    var (out, _) := UpgradeParams(pl, ps).value;
    assert forall i :: 0 <= i < |ps| ==> Advances(pl, ps[i], out[i]);
    assert out == ps;
  }

  /** An upgraded list is accepted. */
  lemma UpgradedPassesCheck(pl: Platform, ps: seq<KeyParam>)
    requires UpgradeParams(pl, ps).Ok?
    ensures CheckParams(pl, UpgradeParams(pl, ps).value.0).Ok?
  {
    UpgradeParamsExact(pl, ps);
    CheckParamsExact(pl, UpgradeParams(pl, ps).value.0);
  }

  /** Lists at the level, before and after: same number, each upgraded; the rest untouched. */
  lemma {:induction false} UpgradeCharsAtLevel(pl: Platform, cs: seq<KeyCharacteristics>)
    requires UpgradeChars(pl, cs).Ok?
    ensures var (out, changed) := UpgradeChars(pl, cs).value;
            var before, after := AtLevel(cs, pl.level), AtLevel(out, pl.level);
            && |after| == |before|
            && (forall i :: 0 <= i < |before| ==>
                  && UpgradeParams(pl, before[i]).Ok?
                  && after[i] == UpgradeParams(pl, before[i]).value.0)
            && (changed <==> out != cs)
  {
    if cs != [] {
      UpgradeCharsAtLevel(pl, cs[1..]);
      if cs[0].securityLevel == pl.level {
        UpgradeParamsExact(pl, cs[0].authorizations);
      }
      assert cs == [cs[0]] + cs[1..];
      var (out, _) := UpgradeChars(pl, cs).value;
      assert out[1..] == UpgradeChars(pl, cs[1..]).value.0;
    }
  }

  /** Whatever is upgraded, and has one list at the TA's level, passes the checker. */
  lemma UpgradePassesChecker(pl: Platform, cs: seq<KeyCharacteristics>)
    requires UpgradeChars(pl, cs).Ok?
    requires CharacteristicsAt(UpgradeChars(pl, cs).value.0, pl.level).Ok?
    ensures CheckVersions(pl, UpgradeChars(pl, cs).value.0).Ok?
  {
    UpgradeCharsAtLevel(pl, cs);
    UpgradedPassesCheck(pl, AtLevel(cs, pl.level)[0]);
  }

  lemma {:induction false} UnchangedIfListsUnchanged(pl: Platform, cs: seq<KeyCharacteristics>)
    requires forall i :: 0 <= i < |AtLevel(cs, pl.level)| ==>
               UpgradeParams(pl, AtLevel(cs, pl.level)[i]) == Ok((AtLevel(cs, pl.level)[i], false))
    ensures UpgradeChars(pl, cs) == Ok((cs, false))
  {
    if cs != [] {
      var lists, rest := AtLevel(cs, pl.level), AtLevel(cs[1..], pl.level);
      if cs[0].securityLevel == pl.level {
        assert lists[0] == cs[0].authorizations && lists[1..] == rest;
        forall i | 0 <= i < |rest| ensures UpgradeParams(pl, rest[i]) == Ok((rest[i], false)) {
          assert rest[i] == lists[i + 1];
        }
      } else {
        assert lists == rest;
      }
      UnchangedIfListsUnchanged(pl, cs[1..]);
      assert cs == [cs[0]] + cs[1..];
    }
  }

  /** Whatever the checker accepts needs no upgrade. */
  lemma CheckedNeedsNoUpgrade(pl: Platform, cs: seq<KeyCharacteristics>)
    requires CheckVersions(pl, cs).Ok?
    ensures UpgradeChars(pl, cs) == Ok((cs, false))
  {
    CheckedUpgradesToSelf(pl, AtLevel(cs, pl.level)[0]);
    UnchangedIfListsUnchanged(pl, cs);
  }

  /** No version ever decreases, except the OS version when the platform's is zero. */
  lemma UpgradeIsMonotone(pl: Platform, ps: seq<KeyParam>, i: nat)
    requires UpgradeParams(pl, ps).Ok? && i < |ps|
    ensures var out := UpgradeParams(pl, ps).value.0;
            && |out| == |ps| && ParamTag(out[i]) == ParamTag(ps[i])
            && (ps[i].Uint? && !ToZero(pl, ps[i]) ==> out[i].u32 >= ps[i].u32)
            && (ToZero(pl, ps[i]) ==> out[i].u32 == 0)
            && (Current(pl, ps[i]).None? ==> out[i] == ps[i])
  {
    UpgradeParamsExact(pl, ps);
  }
}
