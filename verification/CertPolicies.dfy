/**
 web/net/cert_policy.cc and web/net/certificate_policy_cache.cc: certificate errors the user
 chose to go past, kept by host and certificate.
 */
module CertPolicies {

  /** A set of error flags, net::CertStatus. */
  type CertStatus = bv32

  /** The SHA-256 fingerprint of a certificate with its intermediates. */
  type Fingerprint = seq<bv8>

  type Policy = map<Fingerprint, CertStatus>

  datatype Judgment = UNKNOWN | ALLOWED | DENIED

  // ---------- Flags ----------

  predicate IsFlag(flag: CertStatus) {
    flag != 0 && flag & (flag - 1) == 0
  }

  /** Every flag set in `error` is set in `saved`. */
  ghost predicate FlagsWithin(error: CertStatus, saved: CertStatus) {
    forall flag :: IsFlag(flag) && error & flag != 0 ==> saved & flag != 0
  }

  /** The mask expression of CertPolicy::Check. */
  predicate Covers(saved: CertStatus, error: CertStatus) {
    saved & error != 0 && !(saved & error) ^ !error == 0
  }

  lemma CoveredHasNoExtra(saved: CertStatus, error: CertStatus)
    requires Covers(saved, error)
    ensures error != 0 && error & !saved == 0
  {
  }

  lemma NoExtraIsKept(saved: CertStatus, error: CertStatus)
    requires error & !saved == 0
    ensures saved & error == error
  {
  }

  lemma XorOfSame(x: CertStatus)
    ensures !x ^ !x == 0
  {
  }

  lemma NoExtraIsCovered(saved: CertStatus, error: CertStatus)
    requires error != 0 && error & !saved == 0
    ensures Covers(saved, error)
  {
    NoExtraIsKept(saved, error);
    XorOfSame(error);
  }

  lemma NoFlagExtra(saved: CertStatus, error: CertStatus, flag: CertStatus)
    requires error & !saved == 0 && error & flag != 0
    ensures saved & flag != 0
  {
  }

  lemma NoneExtraIsWithin(saved: CertStatus, error: CertStatus)
    requires error & !saved == 0
    ensures FlagsWithin(error, saved)
  {
    forall flag | IsFlag(flag) && error & flag != 0 ensures saved & flag != 0 {
      NoFlagExtra(saved, error, flag);
    }
  }

  /** The lowest of the errors not saved. */
  lemma ExtraHasFlag(saved: CertStatus, error: CertStatus) returns (flag: CertStatus)
    requires error & !saved != 0
    ensures IsFlag(flag) && error & flag != 0 && saved & flag == 0
  {
    var extra := error & !saved;
    flag := extra & (0 - extra);
  }

  lemma ExtraIsNotWithin(saved: CertStatus, error: CertStatus)
    requires error & !saved != 0
    ensures !FlagsWithin(error, saved)
  {
    var flag := ExtraHasFlag(saved, error);
  }

  /** The mask expression holds of the nonempty sets of errors within the saved ones. */
  lemma CoversIffNonemptyWithin(saved: CertStatus, error: CertStatus)
    ensures Covers(saved, error) <==> error != 0 && FlagsWithin(error, saved)
  {
    if Covers(saved, error) {
      CoveredHasNoExtra(saved, error);
      NoneExtraIsWithin(saved, error);
    } else if error != 0 {
      if error & !saved == 0 {
        NoExtraIsCovered(saved, error);
      } else {
        ExtraIsNotWithin(saved, error);
      }
    }
  }

  // ---------- Histories ----------

  datatype Call =
    | Allow(cert: Fingerprint, host: string, error: CertStatus)
    | Query(cert: Fingerprint, host: string, error: CertStatus)
    | Clear

  type Policies = map<string, Policy>

  /** The policy operator[] finds, or inserts. */
  function PolicyOf(policies: Policies, host: string): Policy {
    if host in policies then policies[host] else map[]
  }

  function Next(policies: Policies, call: Call): Policies {
    match call
    case Allow(cert, host, error) => policies[host := PolicyOf(policies, host)[cert := error]]
    case Query(_, host, _) => policies[host := PolicyOf(policies, host)]
    case Clear => map[]
  }

  function After(calls: seq<Call>): Policies {
    if calls == [] then map[] else Next(After(calls[..|calls| - 1]), calls[|calls| - 1])
  }

  function Judge(policies: Policies, cert: Fingerprint, host: string, error: CertStatus): Judgment {
    var policy := PolicyOf(policies, host);
    if cert in policy && Covers(policy[cert], error) then ALLOWED else UNKNOWN
  }

  predicate Forgets(call: Call, cert: Fingerprint, host: string) {
    match call
    case Allow(c, h, _) => c == cert && h == host
    case Query(_, _, _) => false
    case Clear => true
  }

  /** Call `i` is the last one to allow the certificate for the host, and not cleared since. */
  ghost predicate Governs(calls: seq<Call>, i: nat, cert: Fingerprint, host: string) {
    && i < |calls| && calls[i].Allow? && calls[i].cert == cert && calls[i].host == host
    && forall j :: i < j < |calls| ==> !Forgets(calls[j], cert, host)
  }

  lemma {:induction false} SavedIffGoverned(calls: seq<Call>, cert: Fingerprint, host: string, saved: CertStatus)
    ensures cert in PolicyOf(After(calls), host) && PolicyOf(After(calls), host)[cert] == saved
      <==> exists i: nat :: Governs(calls, i, cert, host) && calls[i].error == saved
  {
    if calls != [] {
      var n := |calls| - 1;
      var before, last := calls[..n], calls[n];
      SavedIffGoverned(before, cert, host, saved);
      if Forgets(last, cert, host) {
        if last.Allow? {
          assert Governs(calls, n, cert, host);
        }
        assert forall i: nat :: Governs(calls, i, cert, host) ==> i == n;
      } else {
        assert forall i: nat :: Governs(calls, i, cert, host) <==> Governs(before, i, cert, host);
      }
    }
  }

  /**
   After any calls, a query is answered ALLOWED exactly if there are errors, all among those
   last allowed for the host and the certificate since the last clear; it is never DENIED.
   */
  lemma AllowedIffWithinLastAllowed(calls: seq<Call>, cert: Fingerprint, host: string, error: CertStatus)
    ensures Judge(After(calls), cert, host, error) == ALLOWED
      <==> exists i: nat :: Governs(calls, i, cert, host) && error != 0 && FlagsWithin(error, calls[i].error)
    ensures Judge(After(calls), cert, host, error) != DENIED
  {
    var policy := PolicyOf(After(calls), host);
    if cert in policy {
      SavedIffGoverned(calls, cert, host, policy[cert]);
      CoversIffNonemptyWithin(policy[cert], error);
    }
    forall i: nat | Governs(calls, i, cert, host)
      ensures cert in policy && policy[cert] == calls[i].error
    {
      SavedIffGoverned(calls, cert, host, calls[i].error);
    }
  }

  /** Queries insert policies, yet no later answer depends on there having been queries. */
  lemma QueriesAreUnobservable(calls: seq<Call>, query: Call, later: seq<Call>,
      cert: Fingerprint, host: string, error: CertStatus)
    requires query.Query?
    ensures Judge(After(calls + [query] + later), cert, host, error) == Judge(After(calls + later), cert, host, error)
  {
    QueryKeepsPolicies(calls, query, later, host);
  }

  lemma {:induction false} QueryKeepsPolicies(calls: seq<Call>, query: Call, later: seq<Call>, host: string)
    requires query.Query?
    ensures PolicyOf(After(calls + [query] + later), host) == PolicyOf(After(calls + later), host)
  {
    var with, without := calls + [query] + later, calls + later;
    if later == [] {
      assert with[..|with| - 1] == calls && without == calls;
    } else {
      assert with[..|with| - 1] == calls + [query] + later[..|later| - 1];
      assert without[..|without| - 1] == calls + later[..|later| - 1];
      QueryKeepsPolicies(calls, query, later[..|later| - 1], host);
      NextIsLocal(After(with[..|with| - 1]), After(without[..|without| - 1]), later[|later| - 1], host);
    }
  }

  lemma NextIsLocal(a: Policies, b: Policies, call: Call, host: string)
    requires PolicyOf(a, host) == PolicyOf(b, host)
    ensures PolicyOf(Next(a, call), host) == PolicyOf(Next(b, call), host)
  {
  }

  // ---------- The classes ----------

  class CertPolicy {
    var allowed: Policy

    constructor ()
      ensures allowed == map[]
    {
      allowed := map[];
    }

    method Check(cert: Fingerprint, error: CertStatus) returns (judgment: Judgment)
      ensures judgment == ALLOWED <==>
        cert in allowed && error != 0 && FlagsWithin(error, allowed[cert])
      ensures judgment == if cert in allowed && Covers(allowed[cert], error) then ALLOWED else UNKNOWN
    {
      if cert in allowed {
        CoversIffNonemptyWithin(allowed[cert], error);
        if Covers(allowed[cert], error) {
          return ALLOWED;
        }
      }
      return UNKNOWN;
    }

    /** A status saved earlier is replaced, not extended. */
    method Allow(cert: Fingerprint, error: CertStatus)
      modifies this
      ensures allowed == old(allowed)[cert := error]
    {
      allowed := allowed[cert := error];
    }
  }

  class CertificatePolicyCache {
    var certPolicyForHost: map<string, CertPolicy>

    /** A map of values: no two hosts share a policy. */
    ghost predicate Valid()
      reads this
    {
      forall h1, h2 :: h1 in certPolicyForHost && h2 in certPolicyForHost && h1 != h2 ==>
        certPolicyForHost[h1] != certPolicyForHost[h2]
    }

    ghost function Contents(): Policies
      reads this, certPolicyForHost.Values
    {
      map host | host in certPolicyForHost :: certPolicyForHost[host].allowed
    }

    constructor ()
      ensures Valid() && Contents() == After([])
    {
      certPolicyForHost := map[];
    }

    /** operator[]: inserts a policy for a host that has none. */
    method At(host: string) returns (policy: CertPolicy)
      requires Valid()
      modifies this
      ensures Valid() && host in certPolicyForHost && certPolicyForHost[host] == policy
      ensures Contents() == old(Contents())[host := PolicyOf(old(Contents()), host)]
      ensures policy in old(certPolicyForHost.Values) || fresh(policy)
    {
      if host !in certPolicyForHost {
        var inserted := new CertPolicy();
        certPolicyForHost := certPolicyForHost[host := inserted];
      }
      policy := certPolicyForHost[host];
    }

    method AllowCertForHost(cert: Fingerprint, host: string, error: CertStatus)
      requires Valid()
      modifies this, certPolicyForHost.Values
      ensures Valid() && Contents() == Next(old(Contents()), Call.Allow(cert, host, error))
    {
      var policy := At(host);
      policy.Allow(cert, error);
    }

    method QueryPolicy(cert: Fingerprint, host: string, error: CertStatus) returns (judgment: Judgment)
      requires Valid()
      modifies this
      ensures Valid() && Contents() == Next(old(Contents()), Query(cert, host, error))
      ensures judgment == Judge(old(Contents()), cert, host, error)
    {
      var policy := At(host);
      assert policy.allowed == Contents()[host];
      judgment := policy.Check(cert, error);
    }

    method ClearCertificatePolicies()
      modifies this
      ensures Valid() && Contents() == Next(old(Contents()), Clear)
    {
      certPolicyForHost := map[];
    }
  }
}
