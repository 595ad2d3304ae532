/**
 * Long-haul / short-haul classification of every booking. The `route_type`
 * column starts out missing on every row; a first pass marks the rows whose
 * route is on the short-haul list, a second pass marks every row still
 * missing as long-haul.
 */
module RouteTypes {
  import opened Wrappers

  const SHORT: string := "short"
  const LONG: string := "long"

  /** The closed-world rule: a listed route is short-haul, any other route long-haul. */
  function RouteTypeOf(route: string, shortRoutes: set<string>): (t: string)
    ensures t == SHORT <==> route in shortRoutes
    ensures t == LONG <==> route !in shortRoutes
  {
    if route in shortRoutes then SHORT else LONG
  }

  /** The `route_type` column the two passes are meant to produce, row by row. */
  function Classification(routes: seq<string>, shortRoutes: set<string>): (c: seq<string>)
    ensures |c| == |routes|
    ensures forall i :: 0 <= i < |routes| ==> c[i] == RouteTypeOf(routes[i], shortRoutes)
  {
    seq(|routes|, i requires 0 <= i < |routes| => RouteTypeOf(routes[i], shortRoutes))
  }

  /** First pass: every row whose route is listed gets "short"; the others are not touched. */
  method MarkShort(routes: seq<string>, shortRoutes: set<string>, routeType: array<Option<string>>)
    requires routeType.Length == |routes|
    modifies routeType
    ensures forall i :: 0 <= i < |routes| ==>
      routeType[i] == if routes[i] in shortRoutes then Some(SHORT) else old(routeType[i])
  {
    for i := 0 to |routes|
      invariant forall k :: 0 <= k < i ==>
        routeType[k] == if routes[k] in shortRoutes then Some(SHORT) else old(routeType[k])
      invariant forall k :: i <= k < |routes| ==> routeType[k] == old(routeType[k])
    {
      if routes[i] in shortRoutes {
        routeType[i] := Some(SHORT);
      }
    }
  }

  /** Second pass: every row whose type is still missing gets "long"; the others are not touched. */
  method FillLong(routeType: array<Option<string>>)
    modifies routeType
    ensures forall i :: 0 <= i < routeType.Length ==>
      routeType[i] == if old(routeType[i]).None? then Some(LONG) else old(routeType[i])
  {
    for i := 0 to routeType.Length
      invariant forall k :: 0 <= k < i ==>
        routeType[k] == if old(routeType[k]).None? then Some(LONG) else old(routeType[k])
      invariant forall k :: i <= k < routeType.Length ==> routeType[k] == old(routeType[k])
    {
      if routeType[i].None? {
        routeType[i] := Some(LONG);
      }
    }
  }

  /**
   * Both passes over a fresh, all-missing column. No row is left
   * unclassified, and a row is short-haul exactly when its route is listed.
   */
  method Classify(routes: seq<string>, shortRoutes: set<string>) returns (column: seq<string>)
    ensures column == Classification(routes, shortRoutes)
    ensures forall i :: 0 <= i < |routes| ==> (column[i] == SHORT <==> routes[i] in shortRoutes)
    ensures forall i :: 0 <= i < |routes| ==> (column[i] == LONG <==> routes[i] !in shortRoutes)
  {
    var routeType := new Option<string>[|routes|](_ => None);
    MarkShort(routes, shortRoutes, routeType);
    FillLong(routeType);
    assert forall i :: 0 <= i < |routes| ==> routeType[i] == Some(RouteTypeOf(routes[i], shortRoutes));
    column := seq(routeType.Length, i requires 0 <= i < routeType.Length && routeType[i].Some? reads routeType =>
      routeType[i].value);
  }

  /** Number of rows whose route is on the short-haul list. */
  function CountListed(routes: seq<string>, shortRoutes: set<string>): (n: nat)
    ensures n <= |routes|
  {
    if routes == [] then 0
    else (if routes[0] in shortRoutes then 1 else 0) + CountListed(routes[1..], shortRoutes)
  }

  /** "short" occurs once per listed row of the classified column, "long" once per other row. */
  lemma {:induction false} ClassificationShortCount(routes: seq<string>, shortRoutes: set<string>)
    ensures multiset(Classification(routes, shortRoutes))[SHORT] == CountListed(routes, shortRoutes)
    ensures multiset(Classification(routes, shortRoutes))[LONG] == |routes| - CountListed(routes, shortRoutes)
  {
    if routes != [] {
      var c := Classification(routes, shortRoutes);
      var rest := Classification(routes[1..], shortRoutes);
      assert c == [c[0]] + rest;
      assert multiset(c) == multiset{c[0]} + multiset(rest);
      ClassificationShortCount(routes[1..], shortRoutes);
    }
  }

  /**
   * The classified column holds only the two types; "short" occurs once per
   * listed row and "long" once per other row, so together they count every row.
   */
  lemma ClassificationCounts(routes: seq<string>, shortRoutes: set<string>)
    ensures multiset(Classification(routes, shortRoutes))[SHORT] == CountListed(routes, shortRoutes)
    ensures multiset(Classification(routes, shortRoutes))[LONG] == |routes| - CountListed(routes, shortRoutes)
    ensures forall t :: t != SHORT && t != LONG ==> t !in Classification(routes, shortRoutes)
  {
    ClassificationShortCount(routes, shortRoutes);
  }
}
