/** The revocation store: token ids with the time their entry lapses. */
module TokenStores {
  import opened Models

  type Revoked = map<Id, real>

  function Pruned(r: Revoked, now: real): Revoked {
    map jti | jti in r && r[jti] > now :: r[jti]
  }

  function AfterRevoke(r: Revoked, now: real, jti: Id, ttl: int): Revoked {
    Pruned(r, now)[jti := now + AtLeastOne(ttl) as real]
  }

  predicate HoldsRevoked(r: Revoked, now: real, jti: Id) {
    jti in r && r[jti] > now
  }

  /** Looking a token up drops its own entry when that has lapsed. */
  function AfterLookup(r: Revoked, now: real, jti: Id): Revoked {
    if jti in r && r[jti] <= now then r - {jti} else r
  }

  /** Revoking leaves the new entry and every live one, and no lapsed one. */
  lemma RevokeKeepsLive(r: Revoked, now: real, jti: Id, ttl: int)
    ensures var r' := AfterRevoke(r, now, jti, ttl);
            && (forall j | j != jti :: j in r' <==> j in r && r[j] > now)
            && (forall j | j != jti && j in r' :: r'[j] == r[j])
            && jti in r' && r'[jti] == now + (if ttl >= 1 then ttl as real else 1.0)
  {
  }

  /** A lookup forgets the entry that it finds lapsed, and no other. */
  lemma LookupForgetsLapsed(r: Revoked, now: real, jti: Id)
    ensures jti in AfterLookup(r, now, jti) <==> HoldsRevoked(r, now, jti)
    ensures AfterLookup(r, now, jti) - {jti} == r - {jti}
  {
  }

  class InMemoryTokenStore {
    var revoked: Revoked

    constructor ()
      ensures revoked == map[]
    {
      revoked := map[];
    }

    method Prune(now: real)
      modifies this
      ensures revoked == Pruned(old(revoked), now)
    {
      var expired := set jti | jti in revoked && revoked[jti] <= now;
      ghost var before := revoked;
      while expired != {}
        invariant expired <= revoked.Keys <= before.Keys
        invariant forall jti | jti in revoked :: revoked[jti] == before[jti]
        invariant forall jti | jti in before :: jti in revoked <==> before[jti] > now || jti in expired
        invariant forall jti | jti in expired :: before[jti] <= now
      {
        var jti :| jti in expired;
        expired := expired - {jti};
        revoked := revoked - {jti};
      }
    }

    method Revoke(jti: Id, ttl: int, now: real)
      modifies this
      ensures revoked == AfterRevoke(old(revoked), now, jti, ttl)
    {
      Prune(now);
      revoked := revoked[jti := now + AtLeastOne(ttl) as real];
    }

    method IsRevoked(jti: Id, now: real) returns (yes: bool)
      modifies this
      ensures yes <==> HoldsRevoked(old(revoked), now, jti)
      ensures revoked == AfterLookup(old(revoked), now, jti)
    {
      if jti !in revoked {
        return false;
      }
      if revoked[jti] <= now {
        revoked := revoked - {jti};
        return false;
      }
      return true;
    }
  }
}
