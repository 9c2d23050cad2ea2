/**
 * The group record returned by Microsoft Graph for one `/groups` entry,
 * restricted to the keys the report reads, and the Python truthiness tests
 * the report applies to it.
 */
module Directory {
  import opened Wrappers

  /**
   * One key of a JSON object: missing from the payload, present with the
   * JSON value `null`, or present with a value.
   */
  datatype Field<T> = Absent | Null | Present(value: T)

  /**
   * A group object. `otherKeys` counts the keys the report never reads
   * (securityEnabled, mailEnabled, groupTypes, createdDateTime, ...); they
   * matter only for whether the object is empty.
   */
  datatype Group = Group(
    id: Field<string>,
    displayName: Field<string>,
    onPremisesSyncEnabled: Field<bool>,
    onPremisesDomainName: Field<string>,
    onPremisesSecurityIdentifier: Field<string>,
    otherKeys: nat)

  /** The object `{}`, the only group object Python treats as false. */
  predicate IsEmpty(g: Group) {
    && g.id.Absent?
    && g.displayName.Absent?
    && g.onPremisesSyncEnabled.Absent?
    && g.onPremisesDomainName.Absent?
    && g.onPremisesSecurityIdentifier.Absent?
    && g.otherKeys == 0
  }

  /** The JSON object `{}`. */
  const EmptyObject := Group(Absent, Absent, Absent, Absent, Absent, 0)

  /** Python's `if group:` on an `Optional[dict]`: neither None nor `{}`. */
  predicate Found(g: Option<Group>)
    ensures Found(g) <==> g.Some? && g.value != EmptyObject
  {
    g.Some? && !IsEmpty(g.value)
  }

  /** Python's `if value:` on the result of `group.get(key)` for a string key. */
  predicate Populated(f: Field<string>)
    ensures f.Absent? || f.Null? || f == Present("") ==> !Populated(f)
    ensures f.Present? && |f.value| > 0 ==> Populated(f)
  {
    f.Present? && f.value != ""
  }

  /** `group.get(key, "")` for a string key, with JSON `null` read as "". */
  function Text(f: Field<string>): (s: string)
    ensures s != "" <==> Populated(f)
  {
    if f.Present? then f.value else ""
  }
}
