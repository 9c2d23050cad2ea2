/**
 * `evaluate_groups`: one report row per requested name, in input order; a
 * failed request becomes an error row and the batch goes on.
 */
module Batch {
  import opened Wrappers
  import opened Directory
  import opened Classification
  import opened Lookup

  /** One row of the report. */
  datatype GroupRecord = GroupRecord(
    requestedName: string,
    matchedName: string,
    source: Source,
    reason: string,
    groupId: string,
    domain: string)

  const RequestFailedPrefix := "Graph request failed: "

  /** The row for a name whose lookup completed, with the (source, reason) pair already computed. */
  function FoundRecord(name: string, group: Option<Group>, verdict: (Source, string)): (r: GroupRecord)
    ensures r.requestedName == name && (r.source, r.reason) == verdict
    ensures Found(group) ==> r.matchedName == Text(group.value.displayName)
                             && r.groupId == Text(group.value.id)
                             && r.domain == Text(group.value.onPremisesDomainName)
    ensures !Found(group) ==> r.matchedName == r.groupId == r.domain == ""
  {
    if Found(group) then
      GroupRecord(name, Text(group.value.displayName), verdict.0, verdict.1,
                  Text(group.value.id), Text(group.value.onPremisesDomainName))
    else GroupRecord(name, "", verdict.0, verdict.1, "", "")
  }

  /** The row for a name whose request raised an exception. */
  function ErrorRecord(name: string, message: string): (r: GroupRecord)
    ensures r.requestedName == name && r.source == Error
    ensures r.matchedName == r.groupId == r.domain == ""
    ensures |r.reason| == |RequestFailedPrefix| + |message|
    ensures r.reason[..|RequestFailedPrefix|] == RequestFailedPrefix
    ensures r.reason[|RequestFailedPrefix|..] == message
  {
    GroupRecord(name, "", Error, RequestFailedPrefix + message, "", "")
  }

  /** The row for one name, as the body of the loop builds it. */
  function Evaluate(name: string, graph: GraphQuery): (r: GroupRecord)
    ensures r.requestedName == name
  {
    match FetchGroup(graph, name)
    case Ok(group) => FoundRecord(name, group, Classify(group))
    case Err(message) => ErrorRecord(name, message)
  }

  /**
   * What a row holds: an error row, with empty match, id and domain, exactly
   * when the request failed; otherwise the classification of the selected
   * group, and that group's name, id and domain when it was found.
   */
  lemma EvaluateRow(name: string, graph: GraphQuery)
    ensures var r := Evaluate(name, graph);
      && (r.source == Error <==> graph(FilterExpression(name)).Err?)
      && (graph(FilterExpression(name)).Err? ==>
            r.matchedName == r.groupId == r.domain == ""
            && r.reason == RequestFailedPrefix + graph(FilterExpression(name)).error)
      && (FetchGroup(graph, name).Ok? ==> (r.source, r.reason) == Classify(FetchGroup(graph, name).value))
      && (r.source == NotFound ==> r.matchedName == r.groupId == r.domain == "")
      && (r.source in {Cloud, OnPrem} ==>
            && FetchGroup(graph, name).Ok? && Found(FetchGroup(graph, name).value)
            && r.matchedName == Text(FetchGroup(graph, name).value.value.displayName)
            && r.groupId == Text(FetchGroup(graph, name).value.value.id)
            && r.domain == Text(FetchGroup(graph, name).value.value.onPremisesDomainName))
  {
  }

  /**
   * The body of the loop for one name: the `try` builds the row from the
   * fetched group, the `except` turns the request exception into an error row.
   */
  method EvaluateOne(name: string, graph: GraphQuery) returns (record: GroupRecord)
    ensures record == Evaluate(name, graph)
  {
    match FetchGroup(graph, name) {
      case Ok(group) =>
        var verdict := Classify(group);
        record := FoundRecord(name, group, verdict);
      case Err(message) =>
        record := ErrorRecord(name, message);
    }
  }

  /** A prefix one element longer. */
  lemma PrefixGrows<T>(s: seq<T>, k: nat)
    requires k < |s|
    ensures s[..k + 1] == s[..k] + [s[k]]
  {
  }

  /**
   * The loop of `evaluate_groups`: exactly one row per name, row i being the
   * row of names[i] alone, whatever happened to the other names.
   */
  method EvaluateGroups(names: seq<string>, graph: GraphQuery) returns (records: seq<GroupRecord>)
    ensures |records| == |names|
    ensures forall i :: 0 <= i < |names| ==> records[i] == Evaluate(names[i], graph)
  {
    ghost var rows := seq(|names|, i requires 0 <= i < |names| => Evaluate(names[i], graph));
    records := [];
    for k := 0 to |names|
      invariant records == rows[..k]
    {
      var record := EvaluateOne(names[k], graph);
      assert record == rows[k];
      PrefixGrows(rows, k);
      records := records + [record];
    }
    assert records == rows;
  }

  /**
   * Rows do not influence each other: two Graph services that answer one
   * name's filter alike give that name the same row, however they answer
   * the other names (a failure elsewhere changes nothing here).
   */
  lemma RowIndependent(name: string, g1: GraphQuery, g2: GraphQuery)
    requires g1(FilterExpression(name)) == g2(FilterExpression(name))
    ensures Evaluate(name, g1) == Evaluate(name, g2)
  {
  }

  /** Rows follow the names: the requested names of the report are the input list, in order, duplicates included. */
  lemma RequestedNamesInOrder(names: seq<string>, graph: GraphQuery, records: seq<GroupRecord>)
    requires |records| == |names|
    requires forall i :: 0 <= i < |names| ==> records[i] == Evaluate(names[i], graph)
    ensures seq(|records|, i requires 0 <= i < |records| => records[i].requestedName) == names
  {
  }
}
