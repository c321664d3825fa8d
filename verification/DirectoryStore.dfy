/** The directory tables: the two transactions statement by statement, and what holds along every run. */
module DirectoryStore {
  import opened Base
  import opened DirectoryMappings
  import opened Reconciliation
  import Model = Reconciliation

  // ----- the revoke and grant statements

  function AfterRevoke(grants: map<Key, Grant>, managed: map<string, string>, source: string,
      desired: map<Key, string>): map<Key, Grant> {
    map key | key in grants ::
      if Outdated(grants, managed, source, desired, key) then grants[key].(active := false) else grants[key]
  }

  function AfterUpsert(grants: map<Key, Grant>, desired: map<Key, string>): map<Key, Grant> {
    map key | key in grants.Keys + desired.Keys ::
      if Lacking(grants, desired, key) then Grant(desired[key], true) else grants[key]
  }

  /** Revoking and then granting reconciles, and the second statement audits what it would have on
      the original grants. */
  lemma SameLack(grants: map<Key, Grant>, managed: map<string, string>, source: string, desired: map<Key, string>,
      key: Key)
    ensures Lacking(AfterRevoke(grants, managed, source, desired), desired, key) <==> Lacking(grants, desired, key)
  {
  }

  lemma TwoStatements(grants: map<Key, Grant>, managed: map<string, string>, source: string, desired: map<Key, string>)
    requires Owns(managed, source, desired)
    ensures var revoked := AfterRevoke(grants, managed, source, desired);
      && AfterUpsert(revoked, desired) == Reconciled(grants, managed, source, desired)
      && GrantedRows(revoked, desired) == GrantedRows(grants, desired)
  {
    forall key
      ensures Lacking(AfterRevoke(grants, managed, source, desired), desired, key) <==> Lacking(grants, desired, key)
    {
      SameLack(grants, managed, source, desired, key);
    }
  }

  // ----- the loops over a mapping's namespaces

  method AnyTaken(namespaces: seq<string>, managed: map<string, string>, source: string) returns (taken: bool)
    ensures taken <==> exists n :: n in namespaces && n in managed && managed[n] != source
  {
    for i := 0 to |namespaces|
      invariant forall n :: n in namespaces[..i] && n in managed ==> managed[n] == source
    {
      if namespaces[i] in managed && managed[namespaces[i]] != source { return true; }
    }
    return false;
  }

  method AnyUnapproved(namespaces: seq<string>, managed: map<string, string>, approved: seq<string>)
    returns (found: bool)
    ensures found <==> exists n :: n in namespaces && n !in managed && n !in approved
  {
    for i := 0 to |namespaces|
      invariant forall n :: n in namespaces[..i] ==> n in managed || n in approved
    {
      if namespaces[i] !in managed && namespaces[i] !in approved { return true; }
    }
    return false;
  }

  /** Inserts the namespaces that are not managed yet; the others already have this source. */
  method Adopt(namespaces: seq<string>, managed: map<string, string>, source: string)
    returns (after: map<string, string>)
    requires forall n :: n in namespaces && n in managed ==> managed[n] == source
    ensures after == managed + map n | n in namespaces :: source
  {
    after := managed;
    for i := 0 to |namespaces|
      invariant forall n :: n in after <==> n in managed || n in namespaces[..i]
      invariant forall n :: n in after ==> after[n] == if n in managed then managed[n] else source
    {
      if namespaces[i] !in after { after := after[namespaces[i] := source]; }
    }
  }

  class Store {
    var sources: map<string, Source>
    var managed: map<string, string>
    var grants: map<Key, Grant>
    var audit: multiset<Audit>
    var epoch: int

    constructor ()
      ensures View() == State(map[], map[], map[], multiset{}, 0) && StateOk(View())
    {
      sources, managed, grants, audit, epoch := map[], map[], map[], multiset{}, 0;
    }

    ghost function View(): State
      reads this
    {
      State(sources, managed, grants, audit, epoch)
    }

    method ConfigureDirectory(m: Mapping, digest: nat, clash: bool) returns (ok: bool)
      requires StateOk(View())
      modifies this`sources, this`managed
      ensures StateOk(View()) && (View(), ok) == Model.Configure(old(View()), m, digest, clash)
    {
      ConfigureKeeps(View(), m, digest, clash);
      ok := ValidateMapping(m);
      if !ok || clash { return false; }
      var taken := AnyTaken(m.namespaces, managed, m.source);
      if taken { return false; }
      var revision := if m.source in sources then sources[m.source].revision else 0;
      if revision > m.revision { return false; }
      if revision == m.revision { return m.source in sources && sources[m.source].digest == digest; }
      var unapproved := AnyUnapproved(m.namespaces, managed, m.approved);
      if unapproved { return false; }
      sources := sources[m.source := Source(m.revision, digest, m, None)];
      managed := Adopt(m.namespaces, managed, m.source);
      return true;
    }

    /** Everything that is checked before a snapshot may change a grant. */
    method CheckSnapshot(s: Snapshot, now: int) returns (ok: bool)
      ensures ok <==> Accepts(View(), s, now)
    {
      if s.source !in sources { return false; }
      var source := sources[s.source];
      if source.revision != s.revision || source.digest != s.digest || epoch != s.epoch
        || s.verifiedAt > now + 5 * SECOND || s.verifiedAt <= now - 30 * SECOND {
        return false;
      }
      if source.lastVerified.Some? && s.verifiedAt <= source.lastVerified.value { return false; }
      ok := ValidateDirectorySnapshot(source.mapping, s);
    }

    method ApplyDirectorySnapshot(s: Snapshot, now: int) returns (ok: bool)
      requires StateOk(View())
      modifies this`sources, this`grants, this`audit
      ensures StateOk(View()) && (View(), ok) == Model.Apply(old(View()), s, now)
    {
      ApplyKeeps(View(), s, now);
      ok := CheckSnapshot(s, now);
      if !ok { return false; }
      var source := sources[s.source];
      assert SourceOk(View(), s.source);
      var copied, desired := BuildDesired(source.mapping, s);
      if !copied { return false; }
      DesiredIsOwned(View(), s);
      Reconcile(s.source, desired);
      sources := sources[s.source := source.(lastVerified := Some(s.verifiedAt))];
      return true;
    }

    /** The two statements that change grants, each with its audit rows. */
    method Reconcile(source: string, desired: map<Key, string>)
      requires Owns(managed, source, desired)
      modifies this`grants, this`audit
      ensures grants == Reconciled(old(grants), managed, source, desired)
      ensures audit == old(audit) + multiset(Changes(old(grants), managed, source, desired))
    {
      TwoStatements(grants, managed, source, desired);
      DisjointUnion(RevokedRows(grants, managed, source, desired), GrantedRows(grants, desired));
      var revoked := RevokedRows(grants, managed, source, desired);
      grants := AfterRevoke(grants, managed, source, desired);
      audit := audit + multiset(revoked);
      var granted := GrantedRows(grants, desired);
      grants := AfterUpsert(grants, desired);
      audit := audit + multiset(granted);
    }
  }

  lemma DisjointUnion(a: set<Audit>, b: set<Audit>)
    requires a !! b
    ensures multiset(a + b) == multiset(a) + multiset(b)
  {
  }

  // ----- runs

  /** OtherGrant is any change that an administrator makes to a grant of another provenance; NewEpoch raises
      the recovery epoch, which fences out snapshots read before. */
  datatype Step =
    | ConfigureStep(m: Mapping, digest: nat, clash: bool)
    | ApplyStep(s: Snapshot, now: int)
    | OtherGrant(key: Key, grant: Grant)
    | NewEpoch

  ghost function Next(st: State, step: Step): (r: State)
    requires StateOk(st)
    ensures StateOk(r)
  {
    match step
    case ConfigureStep(m, digest, clash) => ConfigureKeeps(st, m, digest, clash); Configure(st, m, digest, clash).0
    case ApplyStep(s, now) => ApplyKeeps(st, s, now); Apply(st, s, now).0
    case OtherGrant(key, grant) =>
      var r := if key.provenance == Directory then st else st.(grants := st.grants[key := grant]);
      SameSources(st, r);
      r
    case NewEpoch =>
      var r := st.(epoch := st.epoch + 1);
      SameSources(st, r);
      r
  }

  lemma SameSources(a: State, b: State)
    requires StateOk(a) && b.sources == a.sources && b.managed == a.managed
    ensures StateOk(b)
  {
    forall source | source in b.sources ensures SourceOk(b, source) { assert SourceOk(a, source); }
  }

  ghost function Run(st: State, steps: seq<Step>): (r: State)
    requires StateOk(st)
    ensures StateOk(r)
  {
    if steps == [] then st else Next(Run(st, steps[..|steps| - 1]), steps[|steps| - 1])
  }

  /** The step applies a snapshot of the source, and it is accepted. */
  ghost predicate Applies(st: State, step: Step, source: string) {
    step.ApplyStep? && step.s.source == source && Accepts(st, step.s, step.now)
  }

  /** A source's revision never falls, and while it stays the verification time never falls. */
  ghost predicate Advanced(a: State, b: State, source: string) {
    source in a.sources ==>
      && source in b.sources && a.sources[source].revision <= b.sources[source].revision
      && (a.sources[source].revision == b.sources[source].revision && a.sources[source].lastVerified.Some? ==>
           b.sources[source].lastVerified.Some?
             && a.sources[source].lastVerified.value <= b.sources[source].lastVerified.value)
  }

  lemma ConfigureAdvances(st: State, m: Mapping, digest: nat, clash: bool, source: string)
    ensures Advanced(st, Configure(st, m, digest, clash).0, source)
  {
  }

  lemma ApplyAdvances(st: State, s: Snapshot, now: int, source: string)
    requires StateOk(st)
    ensures Advanced(st, Apply(st, s, now).0, source)
  {
  }

  lemma NextAdvances(st: State, step: Step, source: string)
    requires StateOk(st)
    ensures Advanced(st, Next(st, step), source)
  {
    match step
    case ConfigureStep(m, digest, clash) => ConfigureAdvances(st, m, digest, clash, source);
    case ApplyStep(s, now) => ApplyAdvances(st, s, now, source);
    case _ =>
  }

  lemma {:induction false} RunAdvances(st: State, steps: seq<Step>, source: string)
    requires StateOk(st)
    ensures Advanced(st, Run(st, steps), source)
  {
    if steps != [] {
      var before, last := steps[..|steps| - 1], steps[|steps| - 1];
      RunAdvances(st, before, source);
      NextAdvances(Run(st, before), last, source);
    }
  }

  /** Under one configuration revision, a snapshot accepted later was verified later. */
  lemma NewestWins(st: State, steps: seq<Step>, more: seq<Step>, first: Step, second: Step, source: string)
    requires StateOk(st) && Applies(Run(st, steps), first, source)
    requires Applies(Run(Next(Run(st, steps), first), more), second, source) && second.s.revision == first.s.revision
    ensures first.s.verifiedAt < second.s.verifiedAt
  {
    RunAdvances(Next(Run(st, steps), first), more, source);
  }

  ghost predicate SameGrant(a: State, b: State, source: string, key: Key) {
    ManagedBy(b.managed, source, key) && (key in b.grants <==> key in a.grants)
      && (key in a.grants ==> b.grants[key] == a.grants[key])
  }

  /** A step that applies no snapshot of the source leaves the source's grants alone. */
  lemma NextLeavesAlone(st: State, step: Step, source: string, key: Key)
    requires StateOk(st) && ManagedBy(st.managed, source, key) && !Applies(st, step, source)
    ensures SameGrant(st, Next(st, step), source, key)
  {
    if step.ApplyStep? && Accepts(st, step.s, step.now) { AppliedExactly(st, step.s, step.now, key, ""); }
  }

  ghost predicate NeverApplies(st: State, steps: seq<Step>, source: string)
    requires StateOk(st)
  {
    steps != [] ==>
      NeverApplies(st, steps[..|steps| - 1], source)
        && !Applies(Run(st, steps[..|steps| - 1]), steps[|steps| - 1], source)
  }

  lemma {:induction false} RunLeavesAlone(st: State, steps: seq<Step>, source: string, key: Key)
    requires StateOk(st) && ManagedBy(st.managed, source, key) && NeverApplies(st, steps, source)
    ensures SameGrant(st, Run(st, steps), source, key)
  {
    if steps != [] {
      var before, last := steps[..|steps| - 1], steps[|steps| - 1];
      RunLeavesAlone(st, before, source, key);
      NextLeavesAlone(Run(st, before), last, source, key);
    }
  }

  /** Until a source's next accepted snapshot, whatever happens, its active grants are exactly what its last
      one entitles to. */
  lemma SnapshotStands(st: State, s: Snapshot, now: int, more: seq<Step>, key: Key, role: string)
    requires StateOk(st) && Accepts(st, s, now) && ManagedBy(st.managed, s.source, key)
    requires NeverApplies(Next(st, ApplyStep(s, now)), more, s.source)
    ensures ActiveWith(Run(Next(st, ApplyStep(s, now)), more).grants, key, role) <==>
      Entitled(st.sources[s.source].mapping, s, key, role)
  {
    AppliedExactly(st, s, now, key, role);
    RunLeavesAlone(Next(st, ApplyStep(s, now)), more, s.source, key);
  }
}
