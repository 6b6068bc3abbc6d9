/** The `keypairs` commands: listing one org's keypairs, and generating the
    keypairs missing from one org or from every org of the user.

    The registry is a value (see module Registry); each command returns the
    log of the registry calls it made, in order, beside its result. */
module Keypairs {
  import opened Wrappers
  import opened Registry

  /** How a command ends: success with the message it prints, or an exit
      error carrying its user-facing message. */
  datatype Outcome = Done(message: string) | ExitError(message: string)

  const ORGS_UNAVAILABLE := "Could not retrieve orgs, please try again."
  const MISSING_ORG_FLAG := "Missing flags: --org."
  const FETCH_FAILED := "Error fetching required context."
  const REGEN_FAILED := "Error while regenerating keypairs."
  const GENERATED := "Keypair generation successful."
  const NONE_MISSING := "No keypairs missing."
  const KEYPAIR_LIST_FAILED := "Could not list keypairs, please try again."
  const LIST_ORG_NOT_FOUND := "Org not found."

  function OrgNotFound(name: string): string
  {
    "Org '" + name + "' not found."
  }

  function ForOrgFailed(appName: string): string
  {
    "Could not generate keypairs for org. Run '" + appName + " keypairs generate' to fix."
  }

  /** One row of the has-key table: which key types an org holds among the
      non-revoked keypairs seen so far. */
  datatype KeyFlags = KeyFlags(encryption: bool, signing: bool)
  {
    function Has(t: KeyType): bool
    {
      match t
      case Encryption => encryption
      case Signing => signing
    }

    function With(t: KeyType): (r: KeyFlags)
      ensures r.Has(t)
      ensures forall u :: u != t ==> r.Has(u) == Has(u)
    {
      match t
      case Encryption => this.(encryption := true)
      case Signing => this.(signing := true)
    }

    predicate Complete()
    {
      encryption && signing
    }
  }

  /** A row of the table; an org without a row has no key of either type. */
  function FlagsOf(table: map<OrgId, KeyFlags>, o: OrgId): KeyFlags
  {
    if o in table then table[o] else KeyFlags(false, false)
  }

  // ---------------------------------------------------------------------
  // Specification: key-completeness and the outcome of `keypairs generate`
  // ---------------------------------------------------------------------

  /** `kp` is a non-revoked keypair of type `t` owned by `o`. */
  predicate IsActive(kp: Keypair, o: OrgId, t: KeyType)
  {
    !kp.revoked && kp.orgId == o && kp.keyType == t
  }

  ghost predicate ActiveIn(kps: seq<Keypair>, o: OrgId, t: KeyType)
  {
    exists i :: 0 <= i < |kps| && IsActive(kps[i], o, t)
  }

  /** Some keypair listed for one of the orgs in `listed` is an active key of
      type `t` owned by `o`. */
  ghost predicate ActiveAmong(reg: Registry, listed: set<OrgId>, o: OrgId, t: KeyType)
  {
    exists p :: p in listed && ActiveIn(reg.KeypairsOf(p), o, t)
  }

  ghost predicate KeyComplete(reg: Registry, listed: set<OrgId>, o: OrgId)
  {
    ActiveAmong(reg, listed, o, Encryption) && ActiveAmong(reg, listed, o, Signing)
  }

  /** The target orgs lacking an active keypair of either type. */
  ghost function MissingKeyOrgs(reg: Registry, targets: set<OrgId>): set<OrgId>
  {
    set o | o in targets && !KeyComplete(reg, targets, o)
  }

  /** The orgs `keypairs generate` works on, or the error that stops it. */
  ghost function Targets(reg: Registry, all: bool, orgName: string): Result<set<OrgId>, string>
  {
    if all then
      if reg.orgListFails then Err(ORGS_UNAVAILABLE) else Ok(set org | org in reg.orgs :: org.id)
    else if orgName == "" then Err(MISSING_ORG_FLAG)
    else if orgName in reg.lookupFails || orgName !in reg.byName then Err(OrgNotFound(orgName))
    else Ok({reg.byName[orgName].id})
  }

  /** The outcome of `keypairs generate`, independent of the order in which
      the orgs are visited. */
  ghost function Expected(reg: Registry, all: bool, orgName: string): Outcome
  {
    match Targets(reg, all, orgName)
    case Err(m) => ExitError(m)
    case Ok(targets) =>
      if targets * reg.listFails != {} then ExitError(FETCH_FAILED)
      else
        var missing := MissingKeyOrgs(reg, targets);
        if missing * reg.generateFails != {} then ExitError(REGEN_FAILED)
        else if missing == {} then Done(NONE_MISSING)
        else Done(GENERATED)
  }

  // ---------------------------------------------------------------------
  // `keypairs generate`, step by step
  // ---------------------------------------------------------------------

  /** Picks the target orgs: every listed org with `--all`, otherwise the one
      org named by `--org`. */
  method SelectTargets(reg: Registry, all: bool, orgName: string)
    returns (r: Result<set<OrgId>, string>, calls: seq<Call>)
    ensures r == Targets(reg, all, orgName)
    ensures calls == if all then [ListOrgs] else if orgName == "" then [] else [GetOrgByName(orgName)]
  {
    if all {
      calls := [ListOrgs];
      if reg.orgListFails {
        return Err(ORGS_UNAVAILABLE), calls;
      }
      var targets: set<OrgId> := {};
      var i := 0;
      while i < |reg.orgs|
        invariant 0 <= i <= |reg.orgs|
        invariant targets == set org | org in reg.orgs[..i] :: org.id
      {
        assert reg.orgs[..i + 1] == reg.orgs[..i] + [reg.orgs[i]];
        targets := targets + {reg.orgs[i].id};
        i := i + 1;
      }
      assert reg.orgs[..i] == reg.orgs;
      r := Ok(targets);
    } else {
      if orgName == "" {
        return Err(MISSING_ORG_FLAG), [];
      }
      calls := [GetOrgByName(orgName)];
      if orgName in reg.lookupFails || orgName !in reg.byName {
        return Err(OrgNotFound(orgName)), calls;
      }
      r := Ok({reg.byName[orgName].id});
    }
  }

  lemma ActiveAmongInsert(reg: Registry, done: set<OrgId>, p: OrgId)
    ensures forall o, t :: ActiveAmong(reg, done + {p}, o, t) <==>
      ActiveAmong(reg, done, o, t) || ActiveIn(reg.KeypairsOf(p), o, t)
  {
  }

  /** Lists the keypairs of every target org once and builds the has-key
      table from the non-revoked ones; stops at the first listing that fails. */
  method ScanKeypairs(reg: Registry, targets: set<OrgId>)
    returns (hasKey: Option<map<OrgId, KeyFlags>>, calls: seq<Call>)
    ensures hasKey.None? <==> targets * reg.listFails != {}
    ensures hasKey.Some? ==>
      forall o, t :: FlagsOf(hasKey.value, o).Has(t) <==> ActiveAmong(reg, targets, o, t)
    ensures forall i :: 0 <= i < |calls| ==> calls[i].ListKeypairs? && calls[i].org in targets
    ensures forall i, j :: 0 <= i < j < |calls| ==> calls[i] != calls[j]
    ensures hasKey.Some? ==> forall o :: o in targets ==> ListKeypairs(o) in calls
    ensures hasKey.None? ==>
      |calls| > 0 && calls[|calls| - 1].org in reg.listFails &&
      forall i :: 0 <= i < |calls| - 1 ==> calls[i].org !in reg.listFails
  {
    var table: map<OrgId, KeyFlags> := map[];
    var rest := targets;
    var failed := false;
    ghost var done: set<OrgId> := {};
    calls := [];
    while rest != {}
      invariant rest <= targets && done == targets - rest
      invariant !failed && done * reg.listFails == {}
      invariant forall o, t :: FlagsOf(table, o).Has(t) <==> ActiveAmong(reg, done, o, t)
      invariant forall i :: 0 <= i < |calls| ==> calls[i].ListKeypairs? && calls[i].org in done
      invariant forall i, j :: 0 <= i < j < |calls| ==> calls[i] != calls[j]
      invariant forall o :: o in done ==> ListKeypairs(o) in calls
      decreases rest
    {
      var p :| p in rest;
      calls := calls + [ListKeypairs(p)];
      if p in reg.listFails {
        failed := true;
        assert p in targets * reg.listFails;
        break;
      }
      var kps := reg.KeypairsOf(p);
      var k := 0;
      while k < |kps|
        invariant 0 <= k <= |kps|
        invariant forall o, t :: FlagsOf(table, o).Has(t) <==>
          ActiveAmong(reg, done, o, t) || exists j :: 0 <= j < k && IsActive(kps[j], o, t)
      {
        var kp := kps[k];
        ghost var before := table;
        if !kp.revoked {
          table := table[kp.orgId := FlagsOf(table, kp.orgId).With(kp.keyType)];
        }
        assert forall o, t :: FlagsOf(table, o).Has(t) <==> FlagsOf(before, o).Has(t) || IsActive(kp, o, t);
        assert forall o, t :: (exists j :: 0 <= j < k + 1 && IsActive(kps[j], o, t)) <==>
          (exists j :: 0 <= j < k && IsActive(kps[j], o, t)) || IsActive(kps[k], o, t);
        k := k + 1;
      }
      ActiveAmongInsert(reg, done, p);
      rest := rest - {p};
      done := done + {p};
    }
    if failed {
      hasKey := None;
    } else {
      hasKey := Some(table);
    }
  }

  /** Selects the target orgs that lack either key type in the table. */
  method SelectRegen(targets: set<OrgId>, hasKey: map<OrgId, KeyFlags>) returns (regen: set<OrgId>)
    ensures forall o :: o in regen <==>
      o in targets && (!FlagsOf(hasKey, o).Has(Encryption) || !FlagsOf(hasKey, o).Has(Signing))
  {
    regen := {};
    var rest := targets;
    while rest != {}
      invariant rest <= targets
      invariant forall o :: o in regen <==>
        o in targets - rest && !FlagsOf(hasKey, o).Complete()
      decreases rest
    {
      var o :| o in rest;
      if !FlagsOf(hasKey, o).Has(Encryption) || !FlagsOf(hasKey, o).Has(Signing) {
        regen := regen + {o};
      }
      rest := rest - {o};
    }
  }

  /** Asks the registry to generate keypairs for each org in `regen`, one by
      one, and stops at the first failure. */
  method RunGenerate(reg: Registry, regen: set<OrgId>) returns (ok: bool, calls: seq<Call>)
    ensures ok <==> regen * reg.generateFails == {}
    ensures forall i :: 0 <= i < |calls| ==> calls[i].Generate? && calls[i].org in regen
    ensures forall i, j :: 0 <= i < j < |calls| ==> calls[i] != calls[j]
    ensures ok ==> forall o :: o in regen ==> Generate(o) in calls
    ensures !ok ==>
      |calls| > 0 && calls[|calls| - 1].org in reg.generateFails &&
      forall i :: 0 <= i < |calls| - 1 ==> calls[i].org !in reg.generateFails
  {
    var rest := regen;
    ok := true;
    calls := [];
    while rest != {}
      invariant rest <= regen
      invariant ok && (regen - rest) * reg.generateFails == {}
      invariant forall i :: 0 <= i < |calls| ==> calls[i].Generate? && calls[i].org in regen - rest
      invariant forall i, j :: 0 <= i < j < |calls| ==> calls[i] != calls[j]
      invariant forall o :: o in regen - rest ==> Generate(o) in calls
      invariant forall i :: 0 <= i < |calls| ==> calls[i].org !in reg.generateFails
      decreases rest
    {
      var o :| o in rest;
      calls := calls + [Generate(o)];
      if o in reg.generateFails {
        ok := false;
        assert o in regen * reg.generateFails;
        break;
      }
      rest := rest - {o};
    }
  }

  /** Every target listed in `before` is still listed before each call
      appended after it. */
  lemma ListedBeforeGenerate(before: seq<Call>, gen: seq<Call>, targets: set<OrgId>)
    requires forall o :: o in targets ==> ListKeypairs(o) in before
    ensures forall i :: |before| <= i < |before + gen| ==>
      forall o :: o in targets ==> ListKeypairs(o) in (before + gen)[..i]
  {
    forall i, o | |before| <= i < |before + gen| && o in targets
      ensures ListKeypairs(o) in (before + gen)[..i]
    {
      assert (before + gen)[..i][..|before|] == before;
    }
  }

  /** Two call logs without repeats, sharing no call, join into one without
      repeats. */
  lemma DistinctConcat(a: seq<Call>, b: seq<Call>)
    requires forall i, j :: 0 <= i < j < |a| ==> a[i] != a[j]
    requires forall i, j :: 0 <= i < j < |b| ==> b[i] != b[j]
    requires forall i, j :: 0 <= i < |a| && 0 <= j < |b| ==> a[i] != b[j]
    ensures forall i, j :: 0 <= i < j < |a + b| ==> (a + b)[i] != (a + b)[j]
  {
  }

  /** The call log of the command once the generate calls `gen` follow the
      listing calls `before`. */
  lemma GenerateLog(reg: Registry, before: seq<Call>, gen: seq<Call>, targets: set<OrgId>, regen: set<OrgId>, ok: bool)
    requires forall i, j :: 0 <= i < j < |before| ==> before[i] != before[j]
    requires forall i :: 0 <= i < |before| ==> !before[i].Generate?
    requires forall o :: o in targets ==> ListKeypairs(o) in before
    requires forall i :: 0 <= i < |gen| ==> gen[i].Generate? && gen[i].org in regen
    requires forall i, j :: 0 <= i < j < |gen| ==> gen[i] != gen[j]
    requires ok <==> regen * reg.generateFails == {}
    requires !ok ==> |gen| > 0 && forall i :: 0 <= i < |gen| - 1 ==> gen[i].org !in reg.generateFails
    ensures var calls := before + gen;
      forall i :: 0 <= i < |calls| && calls[i].Generate? ==>
        calls[i].org in regen && forall o :: o in targets ==> ListKeypairs(o) in calls[..i]
    ensures var calls := before + gen;
      forall i, j :: 0 <= i < j < |calls| ==> calls[i] != calls[j]
    ensures var calls := before + gen;
      forall i :: 0 <= i < |calls| && calls[i].Generate? && calls[i].org in reg.generateFails ==>
        i == |calls| - 1 && !ok
  {
    var calls := before + gen;
    ListedBeforeGenerate(before, gen, targets);
    DistinctConcat(before, gen);
    forall i | 0 <= i < |calls| && calls[i].Generate? && calls[i].org in reg.generateFails
      ensures i == |calls| - 1 && !ok
    {
      assert calls[i] == gen[i - |before|];
      assert calls[i].org in regen * reg.generateFails;
    }
  }

  /** `keypairs generate [--org <name> | --all]`. */
  method GenerateKeypairs(reg: Registry, all: bool, orgName: string) returns (res: Outcome, calls: seq<Call>)
    ensures res == Expected(reg, all, orgName)
    ensures !all && orgName == "" ==> calls == []
    ensures all && reg.orgListFails ==> calls == [ListOrgs]
    ensures forall i :: 0 <= i < |calls| && calls[i].Generate? ==>
      Targets(reg, all, orgName).Ok? &&
      Targets(reg, all, orgName).value * reg.listFails == {} &&
      calls[i].org in MissingKeyOrgs(reg, Targets(reg, all, orgName).value)
    ensures forall i :: 0 <= i < |calls| && calls[i].Generate? ==>
      Targets(reg, all, orgName).Ok? &&
      forall o :: o in Targets(reg, all, orgName).value ==> ListKeypairs(o) in calls[..i]
    ensures forall i, j :: 0 <= i < j < |calls| ==> calls[i] != calls[j]
    ensures forall i :: 0 <= i < |calls| && calls[i].Generate? && calls[i].org in reg.generateFails ==>
      i == |calls| - 1 && res == ExitError(REGEN_FAILED)
    ensures res.Done? ==>
      forall o :: o in MissingKeyOrgs(reg, Targets(reg, all, orgName).value) ==> Generate(o) in calls
  {
    var targetsOrErr, selectCalls := SelectTargets(reg, all, orgName);
    calls := selectCalls;
    if targetsOrErr.Err? {
      return ExitError(targetsOrErr.error), calls;
    }
    var targets := targetsOrErr.value;

    var hasKey, scanCalls := ScanKeypairs(reg, targets);
    DistinctConcat(calls, scanCalls);
    calls := calls + scanCalls;
    assert forall i :: 0 <= i < |calls| ==> !calls[i].Generate?;
    if hasKey.None? {
      return ExitError(FETCH_FAILED), calls;
    }

    var regen := SelectRegen(targets, hasKey.value);
    assert regen == MissingKeyOrgs(reg, targets);

    var ok, generateCalls := RunGenerate(reg, regen);
    GenerateLog(reg, calls, generateCalls, targets, regen, ok);
    calls := calls + generateCalls;
    if !ok {
      return ExitError(REGEN_FAILED), calls;
    }

    if regen != {} {
      res := Done(GENERATED);
    } else {
      res := Done(NONE_MISSING);
    }
  }

  // ---------------------------------------------------------------------
  // Properties of key-completeness
  // ---------------------------------------------------------------------

  /** Adding a revoked keypair to any org's listing changes neither which
      orgs are missing keys nor the outcome of `keypairs generate`. */
  lemma RevokedKeypairIsAbsent(reg: Registry, p: OrgId, kp: Keypair, all: bool, orgName: string)
    requires kp.revoked
    ensures var reg' := reg.(keypairs := reg.keypairs[p := reg.KeypairsOf(p) + [kp]]);
      (forall targets :: MissingKeyOrgs(reg', targets) == MissingKeyOrgs(reg, targets)) &&
      Expected(reg', all, orgName) == Expected(reg, all, orgName)
  {
    var reg' := reg.(keypairs := reg.keypairs[p := reg.KeypairsOf(p) + [kp]]);
    forall q, o, t ensures ActiveIn(reg'.KeypairsOf(q), o, t) == ActiveIn(reg.KeypairsOf(q), o, t) {
      if q == p {
        var kps := reg.KeypairsOf(p);
        if ActiveIn(kps + [kp], o, t) {
          var i :| 0 <= i < |kps + [kp]| && IsActive((kps + [kp])[i], o, t);
          assert i < |kps| && IsActive(kps[i], o, t);
        }
        if ActiveIn(kps, o, t) {
          var i :| 0 <= i < |kps| && IsActive(kps[i], o, t);
          assert IsActive((kps + [kp])[i], o, t);
        }
      }
    }
    forall targets ensures MissingKeyOrgs(reg', targets) == MissingKeyOrgs(reg, targets) {
      forall o, t ensures ActiveAmong(reg', targets, o, t) == ActiveAmong(reg, targets, o, t) {
      }
    }
  }

  /** Revoking a keypair keeps it in the listing and can only add orgs to
      those missing keys; an org whose last active key of a type is revoked
      becomes missing. */
  lemma RevocationOnlyRemovesKeys(reg: Registry, p: OrgId, i: nat, targets: set<OrgId>)
    requires i < |reg.KeypairsOf(p)|
    ensures reg.Revoke(p, i).KeypairsOf(p)[i].keyType == reg.KeypairsOf(p)[i].keyType
    ensures reg.Revoke(p, i).KeypairsOf(p)[i].orgId == reg.KeypairsOf(p)[i].orgId
    ensures MissingKeyOrgs(reg, targets) <= MissingKeyOrgs(reg.Revoke(p, i), targets)
    ensures MissingKeyOrgs(reg.Revoke(p, i), targets) <= MissingKeyOrgs(reg, targets) + {reg.KeypairsOf(p)[i].orgId}
    ensures var kp := reg.KeypairsOf(p)[i];
      kp.orgId in targets &&
      (forall q, j :: q in targets && 0 <= j < |reg.KeypairsOf(q)| && (q, j) != (p, i) ==>
         !IsActive(reg.KeypairsOf(q)[j], kp.orgId, kp.keyType)) ==>
      kp.orgId in MissingKeyOrgs(reg.Revoke(p, i), targets)
  {
  }

  /** When every target org lists an active keypair of both types owned by
      itself, `keypairs generate` reports that nothing is missing. */
  lemma CompleteOrgsNeedNothing(reg: Registry, all: bool, orgName: string)
    requires Targets(reg, all, orgName).Ok?
    requires Targets(reg, all, orgName).value * reg.listFails == {}
    requires forall o, t :: o in Targets(reg, all, orgName).value ==> ActiveIn(reg.KeypairsOf(o), o, t)
    ensures Expected(reg, all, orgName) == Done(NONE_MISSING)
  {
  }

  // ---------------------------------------------------------------------
  // `keypairs list` and the single-org generation helper
  // ---------------------------------------------------------------------

  /** The registry side of `keypairs list --org <name>`: looks the org up and
      lists its keypairs, revoked ones included. */
  method ListOrgKeypairs(reg: Registry, orgName: string) returns (r: Result<seq<Keypair>, string>, calls: seq<Call>)
    ensures orgName in reg.lookupFails ==> r == Err(KEYPAIR_LIST_FAILED) && calls == [GetOrgByName(orgName)]
    ensures orgName !in reg.lookupFails && orgName !in reg.byName ==>
      r == Err(LIST_ORG_NOT_FOUND) && calls == [GetOrgByName(orgName)]
    ensures orgName !in reg.lookupFails && orgName in reg.byName ==>
      var id := reg.byName[orgName].id;
      calls == [GetOrgByName(orgName), ListKeypairs(id)] &&
      r == if id in reg.listFails then Err(KEYPAIR_LIST_FAILED) else Ok(reg.KeypairsOf(id))
  {
    calls := [GetOrgByName(orgName)];
    if orgName in reg.lookupFails {
      return Err(KEYPAIR_LIST_FAILED), calls;
    }
    if orgName !in reg.byName {
      return Err(LIST_ORG_NOT_FOUND), calls;
    }
    var org := reg.byName[orgName];
    calls := calls + [ListKeypairs(org.id)];
    if org.id in reg.listFails {
      return Err(KEYPAIR_LIST_FAILED), calls;
    }
    r := Ok(reg.KeypairsOf(org.id));
  }

  /** The org the single-org helper generates for: the one given, or with
      lookup the first org the registry lists. */
  function ForOrgTarget(reg: Registry, orgId: Option<OrgId>, lookupOrg: bool): Option<OrgId>
  {
    if orgId.Some? then orgId
    else if lookupOrg && !reg.orgListFails && |reg.orgs| > 0 then Some(reg.orgs[0].id)
    else None
  }

  /** Generates keypairs for one org, looking up the first org when none is
      given and `lookupOrg` is set; every failure yields the same message. */
  method GenerateKeypairsForOrg(reg: Registry, appName: string, orgId: Option<OrgId>, lookupOrg: bool)
    returns (err: Option<string>, calls: seq<Call>)
    ensures orgId.None? && !lookupOrg ==> err == Some(ForOrgFailed(appName)) && calls == []
    ensures var target := ForOrgTarget(reg, orgId, lookupOrg);
      calls == (if orgId.None? && lookupOrg then [ListOrgs] else []) +
               (if target.Some? then [Generate(target.value)] else [])
    ensures err.None? <==>
      (ForOrgTarget(reg, orgId, lookupOrg).Some? && ForOrgTarget(reg, orgId, lookupOrg).value !in reg.generateFails)
    ensures err.Some? ==> err.value == ForOrgFailed(appName)
  {
    var outputErr := ForOrgFailed(appName);
    calls := [];
    if orgId.None? && !lookupOrg {
      return Some(outputErr), calls;
    }
    var id: OrgId;
    if orgId.None? {
      calls := calls + [ListOrgs];
      if reg.orgListFails || |reg.orgs| < 1 {
        return Some(outputErr), calls;
      }
      id := reg.orgs[0].id;
    } else {
      id := orgId.value;
    }
    calls := calls + [Generate(id)];
    if id in reg.generateFails {
      return Some(outputErr), calls;
    }
    err := None;
  }
}
