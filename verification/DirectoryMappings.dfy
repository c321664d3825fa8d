/** The approved mapping from directory groups and accounts to namespaces, roles and principals. */
module DirectoryMappings {
  import opened Base
  import opened Digraphs

  datatype Binding = Binding(group: string, namespace: string, role: string)
  datatype Alias = Alias(issuer: string, subject: string)
  datatype Identity = Identity(directory: string, principal: string, issuer: string, subject: string, display: string,
      aliases: seq<Alias>)
  datatype Mapping = Mapping(
    source: string, revision: int, namespaces: seq<string>, approved: seq<string>, bindings: seq<Binding>,
      identities: seq<Identity>)

  // ----- what is accepted

  predicate IsId(s: string) {
    |s| == 36 && forall i :: 0 <= i < 36 ==>
      if i == 8 || i == 13 || i == 18 || i == 23 then s[i] == '-' else IsHexDigit(s[i])
  }

  predicate ValidRole(s: string) {
    s == "viewer" || s == "submitter" || s == "operator" || s == "namespace_admin"
  }

  predicate Bounded(m: Mapping) {
    && 1 <= |m.source| <= 128 && m.revision >= 1 && 1 <= |m.namespaces| <= 320 && |m.bindings| <= 1280
         && |m.identities| <= 10000
  }

  predicate ValidAlias(a: Alias) {
    1 <= |a.issuer| <= 512 && 1 <= |a.subject| <= 512 && NUL !in a.issuer && NUL !in a.subject
  }

  /** The sign-in identity and the further aliases; their order and repetition do not matter here. */
  function IdentityAliases(identity: Identity): seq<Alias> {
    [Alias(identity.issuer, identity.subject)] + identity.aliases
  }

  ghost predicate ValidNamespaces(namespaces: seq<string>) {
    (forall i :: 0 <= i < |namespaces| ==> IsId(namespaces[i])) && Distinct(namespaces)
  }

  /** Each group maps to one role in one configured namespace. */
  ghost predicate ValidBindings(bindings: seq<Binding>, namespaces: seq<string>) {
    && (forall i :: 0 <= i < |bindings| ==>
         IsId(bindings[i].group) && bindings[i].namespace in namespaces && ValidRole(bindings[i].role))
    && (forall i, j :: 0 <= i < j < |bindings| ==> bindings[i].group != bindings[j].group)
  }

  predicate ValidIdentity(identity: Identity) {
    && IsId(identity.directory) && IsId(identity.principal) && |identity.display| <= 512 && |identity.aliases| <= 16
    && forall a :: a in IdentityAliases(identity) ==> ValidAlias(a)
  }

  /** Accounts and principals correspond one to one, and no sign-in alias belongs to two of them. */
  ghost predicate ValidIdentities(identities: seq<Identity>) {
    && (forall i :: 0 <= i < |identities| ==> ValidIdentity(identities[i]))
    && (forall i, j :: 0 <= i < j < |identities| ==> Apart(identities[i], identities[j]))
  }

  ghost predicate Apart(a: Identity, b: Identity) {
    a.directory != b.directory && a.principal != b.principal && forall x :: x in IdentityAliases(a) ==>
      x !in IdentityAliases(b)
  }

  ghost predicate ValidMapping(m: Mapping) {
    && Bounded(m) && ValidNamespaces(m.namespaces) && (forall n :: n in m.approved ==> n in m.namespaces)
    && ValidBindings(m.bindings, m.namespaces) && ValidIdentities(m.identities)
  }

  // ----- the check

  method ValidateNamespaces(namespaces: seq<string>) returns (ok: bool)
    ensures ok <==> ValidNamespaces(namespaces)
  {
    var seen: set<string> := {};
    for i := 0 to |namespaces|
      invariant seen == (set k | 0 <= k < i :: namespaces[k]) && ValidNamespaces(namespaces[..i])
    {
      assert namespaces[..i + 1] == namespaces[..i] + [namespaces[i]];
      if !IsId(namespaces[i]) || namespaces[i] in seen { return false; }
      seen := seen + {namespaces[i]};
    }
    assert namespaces[..|namespaces|] == namespaces;
    return true;
  }

  method ValidateBindings(bindings: seq<Binding>, namespaces: seq<string>) returns (ok: bool)
    ensures ok <==> ValidBindings(bindings, namespaces)
  {
    var groups: set<string> := {};
    for i := 0 to |bindings|
      invariant groups == (set k | 0 <= k < i :: bindings[k].group) && ValidBindings(bindings[..i], namespaces)
    {
      assert bindings[..i + 1] == bindings[..i] + [bindings[i]];
      var b := bindings[i];
      if !IsId(b.group) || b.group in groups || b.namespace !in namespaces || !ValidRole(b.role) { return false; }
      groups := groups + {b.group};
    }
    assert bindings[..|bindings|] == bindings;
    return true;
  }

  function AliasKey(a: Alias): string {
    a.issuer + [NUL] + a.subject
  }

  /** Every alias of the listed identities is filed under its key, with the account it belongs to,
      and nothing else is. */
  ghost predicate Filed(aliases: map<string, string>, identities: seq<Identity>) {
    && (forall i, a :: 0 <= i < |identities| && a in IdentityAliases(identities[i]) ==>
         AliasKey(a) in aliases && aliases[AliasKey(a)] == identities[i].directory)
    && (forall k :: k in aliases ==>
         exists i, a :: 0 <= i < |identities| && a in IdentityAliases(identities[i]) && AliasKey(a) == k)
  }

  /** Files one identity's aliases; fails on an invalid one or one that another account holds. */
  method FileAliases(aliases: map<string, string>, identity: Identity) returns (ok: bool, filed: map<string, string>)
    ensures ok <==> forall a :: a in IdentityAliases(identity) ==>
      ValidAlias(a) && (AliasKey(a) in aliases ==> aliases[AliasKey(a)] == identity.directory)
    ensures ok ==> forall a :: a in IdentityAliases(identity) ==> AliasKey(a) in filed
    ensures ok ==> forall k :: k in aliases ==> k in filed && filed[k] == aliases[k]
    ensures ok ==> forall k :: k in filed ==>
      k in aliases || (filed[k] == identity.directory && exists a :: a in IdentityAliases(identity) && AliasKey(a) == k)
  {
    filed := aliases;
    var list := IdentityAliases(identity);
    for i := 0 to |list|
      invariant forall a :: a in list[..i] ==>
        ValidAlias(a) && AliasKey(a) in filed && (AliasKey(a) in aliases ==> aliases[AliasKey(a)] == identity.directory)
      invariant forall k :: k in aliases ==> k in filed && filed[k] == aliases[k]
      invariant forall k :: k in filed ==>
        k in aliases || (filed[k] == identity.directory && exists a :: a in list && AliasKey(a) == k)
    {
      var a := list[i];
      if !ValidAlias(a) || (AliasKey(a) in filed && filed[AliasKey(a)] != identity.directory) { return false, filed; }
      filed := filed[AliasKey(a) := identity.directory];
    }
    return true, filed;
  }

  lemma FiledConflicts(aliases: map<string, string>, before: seq<Identity>, identity: Identity, a: Alias)
    requires Filed(aliases, before) && ValidIdentities(before) && a in IdentityAliases(identity)
    requires ValidAlias(a) && AliasKey(a) in aliases && aliases[AliasKey(a)] != identity.directory
    ensures !ValidIdentities(before + [identity])
  {
    var i, b :| 0 <= i < |before| && b in IdentityAliases(before[i]) && AliasKey(b) == AliasKey(a);
    assert ValidIdentity(before[i]);
    JoinIsInjective(a.issuer, a.subject, b.issuer, b.subject);
    var all := before + [identity];
    assert all[i] == before[i] && all[|before|] == identity && !Apart(all[i], all[|before|]);
  }

  lemma FiledApart(aliases: map<string, string>, before: seq<Identity>, identity: Identity)
    requires Filed(aliases, before) && ValidIdentities(before) && ValidIdentity(identity)
    requires forall i :: 0 <= i < |before| ==>
      before[i].directory != identity.directory && before[i].principal != identity.principal
    requires forall a :: a in IdentityAliases(identity) && AliasKey(a) in aliases ==>
      aliases[AliasKey(a)] == identity.directory
    ensures ValidIdentities(before + [identity])
  {
    var all := before + [identity];
    forall i, j | 0 <= i < j < |all| ensures Apart(all[i], all[j]) {
      if j == |before| {
        forall a | a in IdentityAliases(before[i]) ensures a !in IdentityAliases(identity) {
          assert AliasKey(a) in aliases && aliases[AliasKey(a)] == before[i].directory;
        }
      } else {
        assert Apart(before[i], before[j]);
      }
    }
  }

  lemma FiledAlso(aliases: map<string, string>, filed: map<string, string>, before: seq<Identity>, identity: Identity)
    requires Filed(aliases, before)
    requires forall a :: a in IdentityAliases(identity) ==>
      AliasKey(a) in filed && (AliasKey(a) in aliases ==> aliases[AliasKey(a)] == identity.directory)
    requires forall k :: k in aliases ==> k in filed && filed[k] == aliases[k]
    requires forall k :: k in filed ==>
      k in aliases || (filed[k] == identity.directory && exists a :: a in IdentityAliases(identity) && AliasKey(a) == k)
    ensures Filed(filed, before + [identity])
  {
    var all := before + [identity];
    forall k | k in filed ensures exists i, a :: 0 <= i < |all| && a in IdentityAliases(all[i]) && AliasKey(a) == k {
      if k in aliases {
        var i, a :| 0 <= i < |before| && a in IdentityAliases(before[i]) && AliasKey(a) == k;
        assert all[i] == before[i];
      } else {
        assert all[|before|] == identity;
      }
    }
  }

  ghost predicate Noted(accounts: set<string>, principals: set<string>, aliases: map<string, string>,
      before: seq<Identity>) {
    && accounts == (set k | 0 <= k < |before| :: before[k].directory)
         && principals == (set k | 0 <= k < |before| :: before[k].principal)
    && Filed(aliases, before)
  }

  lemma SetsGrow(before: seq<Identity>, identity: Identity)
    ensures (set k | 0 <= k < |before + [identity]| :: (before + [identity])[k].directory) ==
      (set k | 0 <= k < |before| :: before[k].directory) + {identity.directory}
    ensures (set k | 0 <= k < |before + [identity]| :: (before + [identity])[k].principal) ==
      (set k | 0 <= k < |before| :: before[k].principal) + {identity.principal}
  {
    var all := before + [identity];
    assert all[|before|] == identity;
    forall k | 0 <= k < |before| ensures all[k] == before[k] {}
  }

  /** One identity against those before it. */
  method AddIdentity(ghost before: seq<Identity>, identity: Identity, accounts: set<string>, principals: set<string>,
      aliases: map<string, string>)
    returns (ok: bool, filed: map<string, string>)
    requires ValidIdentities(before) && Noted(accounts, principals, aliases, before)
    ensures ok <==> ValidIdentities(before + [identity])
    ensures ok ==> Noted(accounts + {identity.directory}, principals + {identity.principal}, filed, before + [identity])
  {
    if !IsId(identity.directory) || !IsId(identity.principal) || identity.directory in accounts
      || identity.principal in principals || |identity.display| > 512 || |identity.aliases| > 16 {
      BadIdentity(before, identity);
      return false, aliases;
    }
    ok, filed := FileAliases(aliases, identity);
    if ok {
      FiledApart(aliases, before, identity);
      FiledAlso(aliases, filed, before, identity);
      SetsGrow(before, identity);
    } else {
      AliasConflicts(aliases, before, identity);
    }
  }

  method ValidateIdentities(identities: seq<Identity>) returns (ok: bool)
    ensures ok <==> ValidIdentities(identities)
  {
    var accounts: set<string>, principals: set<string>, aliases: map<string, string> := {}, {}, map[];
    for i := 0 to |identities|
      invariant ValidIdentities(identities[..i]) && Noted(accounts, principals, aliases, identities[..i])
    {
      assert identities[..i + 1] == identities[..i] + [identities[i]];
      ok, aliases := AddIdentity(identities[..i], identities[i], accounts, principals, aliases);
      if !ok {
        EarlierValid(identities, i + 1);
        return false;
      }
      accounts, principals := accounts + {identities[i].directory}, principals + {identities[i].principal};
    }
    assert identities[..|identities|] == identities;
    return true;
  }

  lemma EarlierValid(identities: seq<Identity>, k: nat)
    requires k <= |identities|
    ensures ValidIdentities(identities) ==> ValidIdentities(identities[..k])
  {
    if ValidIdentities(identities) {
      forall i, j | 0 <= i < j < k
        ensures Apart(identities[..k][i], identities[..k][j])
      {
        assert Apart(identities[i], identities[j]);
      }
    }
  }

  ghost predicate Clashes(a: Identity, b: Identity) {
    a.directory == b.directory || a.principal == b.principal
  }

  lemma BadIdentity(before: seq<Identity>, identity: Identity)
    requires !ValidIdentity(identity) || exists i :: 0 <= i < |before| && Clashes(before[i], identity)
    ensures !ValidIdentities(before + [identity])
  {
    var all := before + [identity];
    assert all[|before|] == identity;
    if i :| 0 <= i < |before| && Clashes(before[i], identity) {
      assert all[i] == before[i] && !Apart(all[i], all[|before|]);
    }
  }

  lemma AliasConflicts(aliases: map<string, string>, before: seq<Identity>, identity: Identity)
    requires Filed(aliases, before) && ValidIdentities(before)
    requires exists a ::
      a in IdentityAliases(identity)
        && !(ValidAlias(a) && (AliasKey(a) in aliases ==> aliases[AliasKey(a)] == identity.directory))
    ensures !ValidIdentities(before + [identity])
  {
    var a :| a in IdentityAliases(identity)
      && !(ValidAlias(a) && (AliasKey(a) in aliases ==> aliases[AliasKey(a)] == identity.directory));
    if ValidAlias(a) { FiledConflicts(aliases, before, identity, a); } else { BadIdentity(before, identity); }
  }

  method ValidateMapping(m: Mapping) returns (ok: bool)
    ensures ok <==> ValidMapping(m)
  {
    if !Bounded(m) { return false; }
    ok := ValidateNamespaces(m.namespaces);
    if !ok { return false; }
    for i := 0 to |m.approved|
      invariant forall n :: n in m.approved[..i] ==> n in m.namespaces
    {
      if m.approved[i] !in m.namespaces { return false; }
    }
    ok := ValidateBindings(m.bindings, m.namespaces);
    if !ok { return false; }
    ok := ValidateIdentities(m.identities);
  }
}
