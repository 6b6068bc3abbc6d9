/** The remote registry as the keypair commands see it: a snapshot of what
    each logical operation would answer, including which calls fail.
    Nothing here changes the snapshot: the effect of a keypair generation on
    the registry is not visible to the commands, so it is not modelled. */
module Registry {

  /** An organization identity, compared by value. */
  type OrgId = nat

  datatype KeyType = Encryption | Signing

  /** A keypair as listed by the registry: its type, the organization that
      owns it, and whether it has been revoked. */
  datatype Keypair = Keypair(keyType: KeyType, orgId: OrgId, revoked: bool)

  datatype Org = Org(id: OrgId, name: string)

  /** One request sent to the registry, recorded in call order. */
  datatype Call =
    | ListOrgs
    | GetOrgByName(name: string)
    | ListKeypairs(org: OrgId)
    | Generate(org: OrgId)

  datatype Registry = Registry(
    orgs: seq<Org>,                       // what the org listing returns
    orgListFails: bool,                   // the org listing errors out
    byName: map<string, Org>,             // names the org lookup resolves
    lookupFails: set<string>,             // names whose lookup errors out
    keypairs: map<OrgId, seq<Keypair>>,   // what each keypair listing returns
    listFails: set<OrgId>,                // orgs whose keypair listing errors out
    generateFails: set<OrgId>)            // orgs whose generation errors out
  {
    /** The keypairs listed for `o`; an org the registry knows nothing about
        has none. */
    function KeypairsOf(o: OrgId): seq<Keypair>
    {
      if o in keypairs then keypairs[o] else []
    }

    /** The registry after keypair `i` of org `o` has been revoked: the
        keypair is still listed, now with its revoked flag set. */
    function Revoke(o: OrgId, i: nat): (r: Registry)
      requires i < |KeypairsOf(o)|
      ensures |r.KeypairsOf(o)| == |KeypairsOf(o)|
      ensures r.KeypairsOf(o)[i] == KeypairsOf(o)[i].(revoked := true)
      ensures forall j :: 0 <= j < |KeypairsOf(o)| && j != i ==> r.KeypairsOf(o)[j] == KeypairsOf(o)[j]
      ensures forall p :: p != o ==> r.KeypairsOf(p) == KeypairsOf(p)
      ensures r.(keypairs := keypairs) == this
    {
      var kps := KeypairsOf(o);
      this.(keypairs := keypairs[o := kps[i := kps[i].(revoked := true)]])
    }
  }
}
