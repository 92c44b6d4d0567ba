/** The route logic of the interlocking, for any route table.

  The null-pointer checks on the state have no counterpart: a state is always
  there. Section and point states are set from outside between operations.
*/
module Interlocking {

  datatype SectionState = SFree | SOccupied | SUnknown | SFailed

  datatype PointState = Left | Right | Unintended | Moving | NoEnd

  datatype RouteState = Free | WrongPoints | Reserved | Occupied | Requested | Invalid

  datatype Decision = Stop | Go

  datatype PointNeed = PointNeed(point: nat, position: PointState)

  datatype Route = Route(id: nat, sections: seq<nat>, points: seq<PointNeed>)

  /** ids index the array of route states; sections and points exist. */
  ghost predicate Proper(table: seq<Route>, sectionCount: nat, pointCount: nat) {
    forall i :: 0 <= i < |table| ==>
      && table[i].id < |table|
      && (forall k :: 0 <= k < |table[i].sections| ==> table[i].sections[k] < sectionCount)
      && (forall k :: 0 <= k < |table[i].points| ==> table[i].points[k].point < pointCount)
  }

  datatype Track = Track(section: seq<SectionState>, point: seq<PointState>)

  datatype Plant = Plant(table: seq<Route>, track: Track, route: seq<RouteState>)

  ghost predicate WellFormed(p: Plant) {
    && Proper(p.table, |p.track.section|, |p.track.point|)
    && |p.route| == |p.table|
  }

  /* ----- what a request is granted for ----- */

  predicate Blocks(s: RouteState) {
    s == Reserved || s == Requested || s == Occupied
  }

  ghost predicate Shares(a: Route, b: Route) {
    exists s :: s in a.sections && s in b.sections
  }

  /** d is what the table says of id: its first entry with that id. */
  ghost predicate Defines(table: seq<Route>, id: nat, d: Route) {
    exists i :: 0 <= i < |table| && table[i] == d && d.id == id && forall j :: 0 <= j < i ==> table[j].id != id
  }

  ghost predicate Known(table: seq<Route>, id: nat) {
    exists i :: 0 <= i < |table| && table[i].id == id
  }

  ghost predicate SectionsFree(p: Plant, d: Route)
    requires forall k :: 0 <= k < |d.sections| ==> d.sections[k] < |p.track.section|
  {
    forall k :: 0 <= k < |d.sections| ==> p.track.section[d.sections[k]] == SFree
  }

  ghost predicate PointsRight(p: Plant, d: Route)
    requires forall k :: 0 <= k < |d.points| ==> d.points[k].point < |p.track.point|
  {
    forall k :: 0 <= k < |d.points| ==> p.track.point[d.points[k].point] == d.points[k].position
  }

  /** Another route in a blocking state uses a section of d. */
  ghost predicate Conflict(p: Plant, id: nat, d: Route) {
    exists other, e :: 0 <= other < |p.route| && other != id && Blocks(p.route[other]) && Defines(p.table, other, e)
      && Shares(d, e)
  }

  lemma DefinitionIsUnique(table: seq<Route>, id: nat, d: Route, e: Route)
    requires Defines(table, id, d) && Defines(table, id, e)
    ensures d == e
  {
    var i :| 0 <= i < |table| && table[i] == d && d.id == id && forall j :: 0 <= j < i ==> table[j].id != id;
    var k :| 0 <= k < |table| && table[k] == e && e.id == id && forall j :: 0 <= j < k ==> table[j].id != id;
    assert !(i < k) && !(k < i);
  }

  /** A request for id is to be granted. */
  ghost predicate Grantable(p: Plant, id: nat)
    requires WellFormed(p)
  {
    exists d :: Defines(p.table, id, d) && id < |p.route| && !Blocks(p.route[id])
                && SectionsFree(p, d) && !Conflict(p, id, d) && PointsRight(p, d)
  }

  /** get_route_state, branch by branch. */
  ghost function StateOf(p: Plant, id: nat): RouteState
    requires WellFormed(p)
  {
    if !Known(p.table, id) then Invalid
    else
      var d := DefinitionOf(p.table, id);
      if Blocks(p.route[id]) then p.route[id]
      else if !SectionsFree(p, d) then Occupied
      else if Conflict(p, id, d) then Reserved
      else if !PointsRight(p, d) then WrongPoints
      else Free
  }

  ghost function DefinitionOf(table: seq<Route>, id: nat): (d: Route)
    requires Known(table, id)
    ensures Defines(table, id, d) && d in table
  {
    FirstEntry(table, id, |table|);
    var d :| Defines(table, id, d);
    d
  }

  lemma {:induction false} FirstEntry(table: seq<Route>, id: nat, n: nat)
    requires n <= |table| && exists i :: 0 <= i < n && table[i].id == id
    ensures exists d :: Defines(table, id, d)
  {
    if exists i :: 0 <= i < n - 1 && table[i].id == id {
      FirstEntry(table, id, n - 1);
    } else {
      assert Defines(table, id, table[n - 1]);
    }
  }

  /** A request returns GO exactly when the route is known, does not block, its
      sections are free, no blocking route shares one and its points match. */
  lemma FreeIffGrantable(p: Plant, id: nat)
    requires WellFormed(p)
    ensures StateOf(p, id) == Free <==> Grantable(p, id)
  {
    if Known(p.table, id) {
      var d := DefinitionOf(p.table, id);
      forall e | Defines(p.table, id, e) ensures e == d {
        DefinitionIsUnique(p.table, id, d, e);
      }
    }
  }

  /** Entry i of the table is the first with its id. */
  ghost predicate FirstOf(p: Plant, i: nat) {
    i < |p.table| && forall j :: 0 <= j < i ==> p.table[j].id != p.table[i].id
  }

  /** A route other than entry i blocks and uses a section of it. */
  ghost predicate Crossed(p: Plant, i: nat)
    requires WellFormed(p) && i < |p.table|
  {
    exists j: nat, k: nat, l: nat ::
      && FirstOf(p, j) && p.table[j].id != p.table[i].id
      && (var s := p.route[p.table[j].id]; s == Reserved || s == Requested || s == Occupied)
      && k < |p.table[i].sections| && l < |p.table[j].sections| && p.table[i].sections[k] == p.table[j].sections[l]
  }

  ghost predicate Occupying(p: Plant, i: nat)
    requires WellFormed(p) && i < |p.table|
  {
    var r := p.table[i];
    exists k :: 0 <= k < |r.sections| && p.track.section[r.sections[k]] != SFree
  }

  ghost predicate Misplaced(p: Plant, i: nat)
    requires WellFormed(p) && i < |p.table|
  {
    var r := p.table[i];
    exists k :: 0 <= k < |r.points| && p.track.point[r.points[k].point] != r.points[k].position
  }

  /** What each answer means for the first entry with an id: its own state if it
      blocks, and otherwise the first thing that stands in the way. */
  lemma StateOfIff(p: Plant, i: nat)
    requires WellFormed(p) && FirstOf(p, i)
    ensures var r := p.table[i];
            var own := p.route[r.id];
            var blocks := own == Reserved || own == Requested || own == Occupied;
            var state := StateOf(p, r.id);
            && state != Invalid
            && (state == Requested <==> own == Requested)
            && (state == Occupied <==> own == Occupied || (!blocks && Occupying(p, i)))
            && (state == Reserved <==> own == Reserved || (!blocks && !Occupying(p, i) && Crossed(p, i)))
            && (state == WrongPoints <==> !blocks && !Occupying(p, i) && !Crossed(p, i) && Misplaced(p, i))
            && (state == Free <==> !blocks && !Occupying(p, i) && !Crossed(p, i) && !Misplaced(p, i))
  {
    var r := p.table[i];
    assert Defines(p.table, r.id, r);
    DefinitionIsUnique(p.table, r.id, DefinitionOf(p.table, r.id), r);
    CrossedIff(p, i);
    hide Conflict, Crossed, Defines;
  }

  lemma UnknownIff(p: Plant, id: nat)
    requires WellFormed(p)
    ensures StateOf(p, id) == Invalid <==> forall i :: 0 <= i < |p.table| ==> p.table[i].id != id
  {
  }

  lemma CrossedIff(p: Plant, i: nat)
    requires WellFormed(p) && FirstOf(p, i)
    ensures Conflict(p, p.table[i].id, p.table[i]) <==> Crossed(p, i)
  {
    if Conflict(p, p.table[i].id, p.table[i]) {
      ConflictCrosses(p, i);
    }
    if Crossed(p, i) {
      CrossedConflicts(p, i);
    }
  }

  lemma ConflictCrosses(p: Plant, i: nat)
    requires WellFormed(p) && FirstOf(p, i) && Conflict(p, p.table[i].id, p.table[i])
    ensures Crossed(p, i)
  {
    var r := p.table[i];
    var other, e :| 0 <= other < |p.route| && other != r.id && Blocks(p.route[other]) && Defines(p.table, other, e)
      && Shares(r, e);
    var j: nat :| j < |p.table| && p.table[j] == e && e.id == other
      && forall m :: 0 <= m < j ==> p.table[m].id != other;
    var s :| s in r.sections && s in e.sections;
    var k: nat :| k < |r.sections| && r.sections[k] == s;
    var l: nat :| l < |e.sections| && e.sections[l] == s;
    assert FirstOf(p, j);
    assert r.sections[k] == p.table[j].sections[l];
  }

  lemma CrossedConflicts(p: Plant, i: nat)
    requires WellFormed(p) && FirstOf(p, i) && Crossed(p, i)
    ensures Conflict(p, p.table[i].id, p.table[i])
  {
    var r := p.table[i];
    var j: nat, k: nat, l: nat :|
      && FirstOf(p, j) && p.table[j].id != r.id
      && (var s := p.route[p.table[j].id]; s == Reserved || s == Requested || s == Occupied)
      && k < |r.sections| && l < |p.table[j].sections| && r.sections[k] == p.table[j].sections[l];
    var e := p.table[j];
    assert r.sections[k] in r.sections && r.sections[k] in e.sections;
    assert Defines(p.table, e.id, e) && Shares(r, e);
  }

  ghost function Request(p: Plant, id: nat): Plant
    requires WellFormed(p)
  {
    if Grantable(p, id) then p.(route := p.route[id := Reserved]) else p
  }

  ghost function Release(p: Plant, id: nat): Plant
    requires WellFormed(p)
  {
    if Known(p.table, id) && id < |p.route| && p.route[id] != Free then p.(route := p.route[id := Free]) else p
  }

  /* ----- safety ----- */

  /** Of two different routes in a blocking state none shares a section. */
  ghost predicate Safe(p: Plant) {
    forall a, b, d, e :: 0 <= a < |p.route| && 0 <= b < |p.route| && a != b
                         && Blocks(p.route[a]) && Blocks(p.route[b]) && Defines(p.table, a, d) && Defines(p.table, b, e)
                         ==> !Shares(d, e)
  }

  lemma RequestKeepsSafe(p: Plant, id: nat)
    requires WellFormed(p) && Safe(p)
    ensures WellFormed(Request(p, id)) && Safe(Request(p, id))
  {
    if Grantable(p, id) {
      var g :| Defines(p.table, id, g) && id < |p.route| && !Conflict(p, id, g);
      var q := Request(p, id);
      forall a, b, d, e | 0 <= a < |q.route| && 0 <= b < |q.route| && a != b
                          && Blocks(q.route[a]) && Blocks(q.route[b])
                          && Defines(q.table, a, d) && Defines(q.table, b, e)
        ensures !Shares(d, e)
      {
        if a == id {
          DefinitionIsUnique(p.table, id, d, g);
          assert Blocks(p.route[b]);
        } else if b == id {
          DefinitionIsUnique(p.table, id, e, g);
          assert Blocks(p.route[a]) && (Shares(d, e) ==> Shares(e, d));
        }
      }
    }
  }

  lemma ReleaseKeepsSafe(p: Plant, id: nat)
    requires WellFormed(p) && Safe(p)
    ensures WellFormed(Release(p, id)) && Safe(Release(p, id))
  {
  }

  datatype Operation = RequestOf(id: nat) | ReleaseOf(id: nat) | TrackChanges(track: Track)

  ghost function Operate(p: Plant, op: Operation): Plant
    requires WellFormed(p)
  {
    match op
    case RequestOf(id) => Request(p, id)
    case ReleaseOf(id) => Release(p, id)
    case TrackChanges(t) =>
      if |t.section| == |p.track.section| && |t.point| == |p.track.point| then p.(track := t) else p
  }

  ghost function OperateAll(p: Plant, ops: seq<Operation>): (q: Plant)
    requires WellFormed(p)
    ensures WellFormed(q)
    decreases |ops|
  {
    if ops == [] then p else Operate(OperateAll(p, ops[..|ops| - 1]), ops[|ops| - 1])
  }

  /** The state after cloud_ixl_state_init. */
  predicate Initial(p: Plant) {
    forall i :: 0 <= i < |p.route| ==> p.route[i] == Free
  }

  /** For any table and any run, whatever the track does in between. */
  lemma {:induction false} AlwaysSafe(p: Plant, ops: seq<Operation>)
    requires WellFormed(p) && Initial(p)
    ensures Safe(OperateAll(p, ops))
    decreases |ops|
  {
    if ops != [] {
      var q := OperateAll(p, ops[..|ops| - 1]);
      AlwaysSafe(p, ops[..|ops| - 1]);
      match ops[|ops| - 1]
      case RequestOf(id) => RequestKeepsSafe(q, id);
      case ReleaseOf(id) => ReleaseKeepsSafe(q, id);
      case TrackChanges(t) =>
    }
  }

  /* ----- the program ----- */

  class State {
    const table: seq<Route>
    const section: array<SectionState>
    const point: array<PointState>
    const route: array<RouteState>

    ghost predicate Valid()
      reads this, section, point, route
    {
      WellFormed(Now())
    }

    ghost function Now(): Plant
      reads this, section, point, route
    {
      Plant(table, Track(section[..], point[..]), route[..])
    }

    constructor (table: seq<Route>, sectionCount: nat, pointCount: nat)
      requires Proper(table, sectionCount, pointCount)
      ensures Valid() && Initial(Now()) && this.table == table
      ensures section.Length == sectionCount && point.Length == pointCount
      ensures fresh(section) && fresh(point) && fresh(route)
    {
      this.table := table;
      section := new SectionState[sectionCount](_ => SFree);
      point := new PointState[pointCount](_ => Left);
      route := new RouteState[|table|](_ => Free);
    }

    method GetRouteDefinition(id: nat) returns (found: bool, d: Route)
      ensures found == Known(table, id)
      ensures found ==> Defines(table, id, d) && d in table
    {
      found, d := false, Route(0, [], []);
      for i := 0 to |table|
        invariant forall j :: 0 <= j < i ==> table[j].id != id
      {
        if table[i].id == id {
          assert Defines(table, id, table[i]);
          return true, table[i];
        }
      }
    }

    method RoutesShareSection(left: Route, right: Route) returns (share: bool)
      ensures share == Shares(left, right)
    {
      for i := 0 to |left.sections|
        invariant forall k :: 0 <= k < i ==> left.sections[k] !in right.sections
      {
        for j := 0 to |right.sections|
          invariant forall k :: 0 <= k < j ==> right.sections[k] != left.sections[i]
        {
          if left.sections[i] == right.sections[j] {
            assert left.sections[i] in left.sections && left.sections[i] in right.sections;
            return true;
          }
        }
      }
      return false;
    }

    method ConflictingRoute(id: nat, d: Route) returns (conflict: bool)
      requires Valid()
      ensures conflict == Conflict(Now(), id, d)
    {
      ghost var p := Now();
      for other := 0 to route.Length
        invariant forall k, e ::
                    0 <= k < other && k != id && Blocks(p.route[k]) && Defines(table, k, e) ==> !Shares(d, e)
      {
        if other == id || !Blocks(route[other]) {
          continue;
        }
        var found, e := GetRouteDefinition(other);
        if found {
          var share := RoutesShareSection(d, e);
          if share {
            return true;
          }
        }
        forall f | Defines(table, other, f) ensures !Shares(d, f) {
          if found {
            DefinitionIsUnique(table, other, e, f);
          }
        }
      }
      return false;
    }

    method GetRouteState(id: nat) returns (s: RouteState)
      requires Valid()
      ensures s == StateOf(Now(), id)
    {
      ghost var p := Now();
      var found, d := GetRouteDefinition(id);
      if !found {
        return Invalid;
      }
      DefinitionIsUnique(table, id, d, DefinitionOf(table, id));
      if Blocks(route[id]) {
        return route[id];
      }
      for i := 0 to |d.sections|
        invariant forall k :: 0 <= k < i ==> p.track.section[d.sections[k]] == SFree
      {
        if section[d.sections[i]] != SFree {
          assert p.track.section[d.sections[i]] != SFree;
          return Occupied;
        }
      }
      var conflict := ConflictingRoute(id, d);
      if conflict {
        return Reserved;
      }
      for i := 0 to |d.points|
        invariant forall k :: 0 <= k < i ==> p.track.point[d.points[k].point] == d.points[k].position
      {
        if point[d.points[i].point] != d.points[i].position {
          assert p.track.point[d.points[i].point] != d.points[i].position;
          return WrongPoints;
        }
      }
      return Free;
    }

    method RequestRouteDecision(id: nat) returns (decision: Decision)
      requires Valid()
      modifies route
      ensures Valid() && Now() == Request(old(Now()), id)
      ensures decision == Go <==> Grantable(old(Now()), id)
    {
      var s := GetRouteState(id);
      FreeIffGrantable(Now(), id);
      if s == Free {
        route[id] := Reserved;
        return Go;
      }
      return Stop;
    }

    method ReleaseRoute(id: nat) returns (done: bool)
      requires Valid()
      modifies route
      ensures Valid() && Now() == Release(old(Now()), id)
      ensures done <==> Known(table, id) && id < route.Length && old(route[..])[id] != Free
    {
      var found, d := GetRouteDefinition(id);
      if !found || route[id] == Free {
        return false;
      }
      route[id] := Free;
      return true;
    }
  }
}
