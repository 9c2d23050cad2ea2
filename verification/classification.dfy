/**
 * `classify_group`: the decision table that labels a group as cloud-only or
 * synchronised from on-premises Active Directory.
 */
module Classification {
  import opened Wrappers
  import opened Directory

  /** The `source` column of a report row. */
  datatype Source = Cloud | OnPrem | NotFound | Error

  /** The text the report writes for a source. */
  function Label(s: Source): (l: string)
    ensures l != ""
  {
    match s
    case Cloud => "cloud"
    case OnPrem => "on-prem"
    case NotFound => "not-found"
    case Error => "error"
  }

  const NotReturnedReason := "Group was not returned by Microsoft Graph"
  const SyncTrueReason := "onPremisesSyncEnabled=True"
  const DomainReason := "onPremisesDomainName populated"
  const SidReason := "onPremisesSecurityIdentifier populated"
  const SyncFalseReason := "onPremisesSyncEnabled=False"
  const NoAttributesReason := "No on-premises attributes detected"

  /** `sync_flag is True` */
  predicate SyncTrue(g: Group) { g.onPremisesSyncEnabled == Present(true) }

  /** `sync_flag is False` */
  predicate SyncFalse(g: Group) { g.onPremisesSyncEnabled == Present(false) }

  /** Some on-premises signal is present: the flag is True, or the domain or the SID is populated. */
  predicate HasOnPremSignal(g: Group) {
    SyncTrue(g) || Populated(g.onPremisesDomainName) || Populated(g.onPremisesSecurityIdentifier)
  }

  /**
   * The (source, reason) pair for a lookup result. The source is not-found
   * exactly when nothing (or `{}`) came back, on-prem exactly when some
   * on-premises signal is present, cloud otherwise; it is never error.
   */
  function Classify(group: Option<Group>): (r: (Source, string))
    ensures r.0 == NotFound <==> !Found(group)
    ensures r.0 == OnPrem <==> Found(group) && HasOnPremSignal(group.value)
    ensures r.0 == Cloud <==> Found(group) && !HasOnPremSignal(group.value)
    ensures r.0 != Error
    ensures r.0 == Cloud ==>
      r.1 == (if SyncFalse(group.value) then SyncFalseReason else NoAttributesReason)
    ensures !Found(group) ==> r.1 == NotReturnedReason
    ensures Found(group) && SyncTrue(group.value) ==> r.1 == SyncTrueReason
  {
    if !Found(group) then (NotFound, NotReturnedReason)
    else
      var g := group.value;
      if SyncTrue(g) then (OnPrem, SyncTrueReason)
      else if Populated(g.onPremisesDomainName) then (OnPrem, DomainReason)
      else if Populated(g.onPremisesSecurityIdentifier) then (OnPrem, SidReason)
      else if SyncFalse(g) then (Cloud, SyncFalseReason)
      else (Cloud, NoAttributesReason)
  }

  /*
   * An independent statement of the same decision table: a list of rules,
   * each a condition and the pair it yields, applied first match wins.
   */

  datatype Condition = NoRecord | FlagIs(b: bool) | DomainSet | SidSet | Otherwise

  datatype Rule = Rule(when: Condition, source: Source, reason: string)

  predicate Holds(c: Condition, group: Option<Group>) {
    match c
    case NoRecord => !Found(group)
    case FlagIs(b) => Found(group) && group.value.onPremisesSyncEnabled == Present(b)
    case DomainSet => Found(group) && Populated(group.value.onPremisesDomainName)
    case SidSet => Found(group) && Populated(group.value.onPremisesSecurityIdentifier)
    case Otherwise => true
  }

  /** The rules in their order of priority. */
  const Table: seq<Rule> := [
    Rule(NoRecord, NotFound, NotReturnedReason),
    Rule(FlagIs(true), OnPrem, SyncTrueReason),
    Rule(DomainSet, OnPrem, DomainReason),
    Rule(SidSet, OnPrem, SidReason),
    Rule(FlagIs(false), Cloud, SyncFalseReason),
    Rule(Otherwise, Cloud, NoAttributesReason)
  ]

  /** The outcome of the first rule of `rules`, from index `i` on, whose condition holds. */
  function FirstRule(rules: seq<Rule>, i: nat, group: Option<Group>): Option<(Source, string)>
    requires i <= |rules|
    decreases |rules| - i
  {
    if i == |rules| then None
    else if Holds(rules[i].when, group) then Some((rules[i].source, rules[i].reason))
    else FirstRule(rules, i + 1, group)
  }

  /** Distinct sources are written as distinct labels. */
  lemma LabelInjective(s: Source, t: Source)
    requires Label(s) == Label(t)
    ensures s == t
  {
  }

  /** `classify_group` is the rule table applied first match wins. */
  lemma ClassifyFollowsTable(group: Option<Group>)
    ensures FirstRule(Table, 0, group) == Some(Classify(group))
  {
    if Found(group) {
      var g := group.value;
      assert FirstRule(Table, 0, group) == FirstRule(Table, 1, group);
      if !SyncTrue(g) {
        assert FirstRule(Table, 1, group) == FirstRule(Table, 2, group);
        if !Populated(g.onPremisesDomainName) {
          assert FirstRule(Table, 2, group) == FirstRule(Table, 3, group);
          if !Populated(g.onPremisesSecurityIdentifier) {
            assert FirstRule(Table, 3, group) == FirstRule(Table, 4, group);
            if !SyncFalse(g) {
              assert FirstRule(Table, 4, group) == FirstRule(Table, 5, group);
            }
          }
        }
      }
    }
  }

  /** Reasons are distinct per source: the reason text alone determines the source. */
  lemma ReasonDeterminesSource(g1: Option<Group>, g2: Option<Group>)
    requires Classify(g1).1 == Classify(g2).1
    ensures Classify(g1).0 == Classify(g2).0
  {
  }

  /** A True sync flag decides the outcome whatever the domain and SID hold. */
  lemma SyncTrueOutranksAttributes(g: Group, domain: Field<string>, sid: Field<string>)
    requires SyncTrue(g)
    ensures Classify(Some(g.(onPremisesDomainName := domain, onPremisesSecurityIdentifier := sid)))
         == (OnPrem, SyncTrueReason)
  {
  }

  /** Unless the flag is True, a populated domain decides, whatever the SID holds. */
  lemma DomainOutranksSidAndFalseFlag(g: Group, sid: Field<string>)
    requires !SyncTrue(g) && Populated(g.onPremisesDomainName)
    ensures Classify(Some(g.(onPremisesSecurityIdentifier := sid))) == (OnPrem, DomainReason)
  {
  }

  /** A populated SID outranks an explicit False flag. */
  lemma SidOutranksFalseFlag(g: Group)
    requires SyncFalse(g) && !Populated(g.onPremisesDomainName) && Populated(g.onPremisesSecurityIdentifier)
    ensures Classify(Some(g)) == (OnPrem, SidReason)
  {
  }
}
