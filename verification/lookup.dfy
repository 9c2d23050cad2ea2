/**
 * `fetch_group` without its HTTP call: the `$filter` expression built from
 * the requested name, and the choice of one group among the groups Graph
 * returned for it.
 */
module Lookup {
  import opened Wrappers
  import opened Directory
  import opened Escaping

  /** The text of the `$filter` query parameter before the quoted name. */
  const FilterPrefix := "displayName eq '"

  /** The `$filter` query parameter sent for a display name. */
  function FilterExpression(displayName: string): (f: string)
    ensures |f| == |FilterPrefix| + |displayName| + Count(displayName, Quote) + 1
    ensures f[..|FilterPrefix|] == FilterPrefix
    ensures ReadLiteral(f[|FilterPrefix|..]) == Some((displayName, ""))
  {
    var body := Escape(displayName) + [Quote];
    ReadEscaped(displayName, "");
    assert Escape(displayName) + [Quote] + "" == body;
    assert (FilterPrefix + body)[|FilterPrefix|..] == body;
    FilterPrefix + body
  }

  /** Lower-casing of one character; only the ASCII letters are mapped. */
  function LowerChar(c: char): (r: char)
    ensures 'A' <= c <= 'Z' ==> r == "abcdefghijklmnopqrstuvwxyz"[c as int - 'A' as int]
    ensures !('A' <= c <= 'Z') ==> r == c
    ensures !('A' <= r <= 'Z')
  {
    if 'A' <= c <= 'Z' then (c as int + 32) as char else c
  }

  /** `str.lower()`, restricted to ASCII letters. */
  function Lower(s: string): (r: string)
    ensures |r| == |s|
  {
    seq(|s|, i requires 0 <= i < |s| => LowerChar(s[i]))
  }

  /**
   * The lower-cased text holds no upper-case ASCII letter, keeps every other
   * character in place, and lower-casing it again changes nothing.
   */
  lemma LowerFacts(s: string)
    ensures forall i :: 0 <= i < |s| ==> !('A' <= Lower(s)[i] <= 'Z')
    ensures forall i :: 0 <= i < |s| && !('A' <= s[i] <= 'Z') ==> Lower(s)[i] == s[i]
    ensures Lower(Lower(s)) == Lower(s)
  {
  }

  /** `item.get("displayName", "").lower() == display_name.lower()` */
  predicate NameMatches(item: Group, displayName: string)
    ensures Text(item.displayName) == displayName ==> NameMatches(item, displayName)
    ensures NameMatches(item, displayName) ==> |Text(item.displayName)| == |displayName|
  {
    Lower(Text(item.displayName)) == Lower(displayName)
  }

  /**
   * The index of the first candidate whose display name equals the request
   * case-insensitively (the generator handed to `next`), or None.
   */
  function FirstMatch(matches: seq<Group>, displayName: string): (r: Option<nat>)
    ensures r.Some? ==> r.value < |matches| && NameMatches(matches[r.value], displayName)
    ensures r.Some? ==> forall j :: 0 <= j < r.value ==> !NameMatches(matches[j], displayName)
    ensures r.None? ==> forall j :: 0 <= j < |matches| ==> !NameMatches(matches[j], displayName)
  {
    if matches == [] then None
    else if NameMatches(matches[0], displayName) then Some(0)
    else match FirstMatch(matches[1..], displayName)
      case None => None
      case Some(k) => Some(k + 1)
  }

  /**
   * The group `fetch_group` returns for the candidates Graph sent back: the
   * first case-insensitive match, unless that match is the falsy object
   * `{}`; failing that the first candidate; None when there is none.
   */
  function SelectCandidate(matches: seq<Group>, displayName: string): (r: Option<Group>)
    ensures r.None? <==> matches == []
    ensures r.Some? ==> r.value in matches
    ensures forall i :: 0 <= i < |matches| && NameMatches(matches[i], displayName)
                        && (forall j :: 0 <= j < i ==> !NameMatches(matches[j], displayName))
                        && !IsEmpty(matches[i])
                        ==> r == Some(matches[i])
    ensures forall i :: 0 <= i < |matches| && NameMatches(matches[i], displayName)
                        && (forall j :: 0 <= j < i ==> !NameMatches(matches[j], displayName))
                        && IsEmpty(matches[i])
                        ==> r == Some(matches[0])
    ensures matches != [] && (forall i :: 0 <= i < |matches| ==> !NameMatches(matches[i], displayName))
            ==> r == Some(matches[0])
  {
    var exact := FirstMatch(matches, displayName);
    if exact.Some? && !IsEmpty(matches[exact.value]) then Some(matches[exact.value])
    else if matches != [] then Some(matches[0])
    else None
  }

  /**
   * The HTTP exchange with Graph, left abstract: the `$filter` value sent,
   * mapped to the payload's `value` list (None when the payload has no such
   * key) or to the message of the request exception.
   */
  type GraphQuery = string -> Result<Option<seq<Group>>, string>

  /** The candidate list of a payload: `payload.get("value", [])`. */
  function Candidates(value: Option<seq<Group>>): (r: seq<Group>)
    ensures r == [] <==> value == None || value == Some([])
    ensures forall g :: g in r <==> value.Some? && g in value.value
  {
    if value.Some? then value.value else []
  }

  /**
   * `fetch_group`: a request exception propagates unchanged; otherwise the
   * selected candidate, which is one of the groups Graph returned for this
   * name's filter.
   */
  function FetchGroup(graph: GraphQuery, displayName: string): (r: Result<Option<Group>, string>)
    ensures graph(FilterExpression(displayName)).Err? ==> r == Err(graph(FilterExpression(displayName)).error)
    ensures graph(FilterExpression(displayName)).Ok? ==>
              r == Ok(SelectCandidate(Candidates(graph(FilterExpression(displayName)).value), displayName))
    ensures r.Ok? && r.value.Some? ==> r.value.value in Candidates(graph(FilterExpression(displayName)).value)
    ensures r.Ok? && r.value.None? <==> graph(FilterExpression(displayName)) in {Ok(None), Ok(Some([]))}
  {
    match graph(FilterExpression(displayName))
    case Err(e) => Err(e)
    case Ok(value) => Ok(SelectCandidate(Candidates(value), displayName))
  }

  /** The matching is case-insensitive: the case of ASCII letters in the request does not matter. */
  lemma {:induction false} SelectIgnoresCase(matches: seq<Group>, a: string, b: string)
    requires Lower(a) == Lower(b)
    ensures SelectCandidate(matches, a) == SelectCandidate(matches, b)
  {
    FirstMatchIgnoresCase(matches, a, b);
  }

  lemma {:induction false} FirstMatchIgnoresCase(matches: seq<Group>, a: string, b: string)
    requires Lower(a) == Lower(b)
    ensures FirstMatch(matches, a) == FirstMatch(matches, b)
  {
    if matches != [] {
      assert NameMatches(matches[0], a) == NameMatches(matches[0], b);
      FirstMatchIgnoresCase(matches[1..], a, b);
    }
  }
}
