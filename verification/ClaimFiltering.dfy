/** The verifier hands on only the admitted claims; no decision changes by that. */
module ClaimFiltering {
  import opened Carriers
  import opened Configurations
  import opened JsonTrees
  import opened Policies
  import Base64
  import Issuers
  import Preimages

  lemma LookupAgrees(claims: Claims, names: set<string>, name: string)
    requires name in names
    ensures StringMember(Issuers.Admitted(claims, names), name) == StringMember(claims, name)
  {
  }

  lemma PredicateAgrees(claims: Claims, names: set<string>, p: Predicate)
    requires p.claim in names
    ensures AccountPredicateMatches(Issuers.Admitted(claims, names), p) == AccountPredicateMatches(claims, p)
  {
  }

  lemma RuleAgrees(i: IssuerConfiguration, rule: AccountRule, claims: Claims, extensions: seq<string>)
    requires AdmitsRule(i, rule)
    ensures var issuer, admitted := i.core.issuerPolicy.issuer, i.core.issuerPolicy.admittedClaims;
            AccountRuleMatches(rule, issuer, Issuers.Admitted(claims, admitted), extensions)
            == AccountRuleMatches(rule, issuer, claims, extensions)
  {
    hide AccountPredicateMatches;
    var admitted := i.core.issuerPolicy.admittedClaims;
    if rule.issuer == i.core.issuerPolicy.issuer {
      forall p | p in rule.all
        ensures AccountPredicateMatches(Issuers.Admitted(claims, admitted), p) == AccountPredicateMatches(claims, p)
      {
        assert p.claim in ClaimsOf(rule.all);
        PredicateAgrees(claims, admitted, p);
      }
    }
  }

  /** For every issuer of a configuration that validates, the account decision, the principal and the audit
      identity come out of the admitted claims as they would out of all the authenticated ones. */
  lemma FilteringPreservesMeaning(w: World, e: Environment, root: Json, k: nat, claims: Claims, user: string,
                                  extensions: seq<string>)
    requires Walks(e) && Validate(e, root).Success? && k < |Validate(e, root).value.issuers|
    ensures var c := Validate(e, root).value;
            var i := c.issuers[k];
            var issuer := i.core.issuerPolicy.issuer;
            var admitted := Issuers.Admitted(claims, i.core.issuerPolicy.admittedClaims);
            && (AccountAllows(c.accounts, user, issuer, admitted, extensions)
                == AccountAllows(c.accounts, user, issuer, claims, extensions))
            && Principal(w, issuer, admitted, i.carrier.principalClaim)
               == Principal(w, issuer, claims, i.carrier.principalClaim)
            && (i.auditClaim != "" ==> StringMember(admitted, i.auditClaim) == StringMember(claims, i.auditClaim))
            && (forall p :: p in i.core.issuerPolicy.requiredClaims ==>
                  Issuers.PredicateMatches(admitted, p) == Issuers.PredicateMatches(claims, p))
  {
    hide Validate, Walks, AccountRuleMatches, Preimages.Encode, Base64.Encode;
    ValidatedIsSound(e, root);
    var c := Validate(e, root).value;
    var i := c.issuers[k];
    var issuer, names := i.core.issuerPolicy.issuer, i.core.issuerPolicy.admittedClaims;
    LookupAgrees(claims, names, i.carrier.principalClaim);
    if user in c.accounts {
      forall r | r in c.accounts[user]
        ensures AccountRuleMatches(r, issuer, Issuers.Admitted(claims, names), extensions)
             == AccountRuleMatches(r, issuer, claims, extensions)
      {
        RuleAgrees(i, r, claims, extensions);
      }
    }
    forall p | p in i.core.issuerPolicy.requiredClaims
      ensures Issuers.PredicateMatches(Issuers.Admitted(claims, names), p) == Issuers.PredicateMatches(claims, p)
    {
      assert p.claim in ClaimsOf(i.core.issuerPolicy.requiredClaims);
    }
  }
}
