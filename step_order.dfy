/** Positions of steps in the route → leg → step structure of a directions
    result, and the order in which the source's nested `forEach` loops visit
    them. */
module StepOrder {
  import opened Wrappers
  import opened Provider

  /** Where a step sits: route index, leg index within its route, step index
      within its leg. */
  datatype Pos = Pos(route: nat, leg: nat, step: nat)

  /** Strict lexicographic order on positions: the visiting order. */
  predicate Before(p: Pos, q: Pos) {
    || p.route < q.route
    || (p.route == q.route && p.leg < q.leg)
    || (p.route == q.route && p.leg == q.leg && p.step < q.step)
  }

  predicate Increasing(ps: seq<Pos>) {
    forall i, j :: 0 <= i < j < |ps| ==> Before(ps[i], ps[j])
  }

  /** p names a step of d. */
  predicate ValidPos(d: DirectionsResult, p: Pos) {
    && p.route < |d.routes|
    && p.leg < |d.routes[p.route].legs|
    && p.step < |d.routes[p.route].legs[p.leg].steps|
  }

  function StepAt(d: DirectionsResult, p: Pos): Step
    requires ValidPos(d, p)
  {
    d.routes[p.route].legs[p.leg].steps[p.step]
  }

  /** Two increasing runs, the first wholly before the second, make an
      increasing run. */
  lemma IncreasingAppend(a: seq<Pos>, b: seq<Pos>)
    requires Increasing(a) && Increasing(b)
    requires forall i, j :: 0 <= i < |a| && 0 <= j < |b| ==> Before(a[i], b[j])
    ensures Increasing(a + b)
  {
  }

  /** What one loop iteration pushes: nothing or one item. */
  function Emitted<T>(o: Option<T>): (r: seq<T>)
    ensures |r| == (if o.Some? then 1 else 0)
  {
    match o
    case Some(x) => [x]
    case None => []
  }

  /** The visit of a directions result by the nested `forEach` loops over
      routes, legs and steps that both directions parsers run, with the loop
      body abstracted as `f`: for the step at position p, `f(p, step)` is the
      item the body pushes, if any. The functions below say what the first n
      iterations of each loop push. */
  function StepItems<T>(r: nat, l: nat, steps: seq<Step>, n: nat, f: (Pos, Step) -> Option<T>): seq<T>
    requires n <= |steps|
  {
    if n == 0 then [] else StepItems(r, l, steps, n - 1, f) + Emitted(f(Pos(r, l, n - 1), steps[n - 1]))
  }

  function LegItems<T>(r: nat, legs: seq<Leg>, n: nat, f: (Pos, Step) -> Option<T>): seq<T>
    requires n <= |legs|
  {
    if n == 0 then [] else LegItems(r, legs, n - 1, f) + StepItems(r, n - 1, legs[n - 1].steps, |legs[n - 1].steps|, f)
  }

  function RouteItems<T>(routes: seq<Route>, n: nat, f: (Pos, Step) -> Option<T>): seq<T>
    requires n <= |routes|
  {
    if n == 0 then [] else RouteItems(routes, n - 1, f) + LegItems(n - 1, routes[n - 1].legs, |routes[n - 1].legs|, f)
  }

  /** Everything the visit pushes, in order. */
  function Items<T>(d: DirectionsResult, f: (Pos, Step) -> Option<T>): seq<T> {
    RouteItems(d.routes, |d.routes|, f)
  }

  /** The visit of a single route with two legs, each of one step. */
  lemma TwoSingleStepLegs<T>(r: Route, f: (Pos, Step) -> Option<T>)
    requires |r.legs| == 2 && |r.legs[0].steps| == 1 && |r.legs[1].steps| == 1
    ensures Items(DirectionsResult([r]), f) ==
      Emitted(f(Pos(0, 0, 0), r.legs[0].steps[0])) + Emitted(f(Pos(0, 1, 0), r.legs[1].steps[0]))
  {
    var d := DirectionsResult([r]);
    assert StepItems(0, 0, r.legs[0].steps, 1, f) == Emitted(f(Pos(0, 0, 0), r.legs[0].steps[0]));
    assert StepItems(0, 1, r.legs[1].steps, 1, f) == Emitted(f(Pos(0, 1, 0), r.legs[1].steps[0]));
    assert LegItems(0, r.legs, 1, f) == StepItems(0, 0, r.legs[0].steps, 1, f);
    assert Items(d, f) == RouteItems(d.routes, 0, f) + LegItems(0, r.legs, 2, f);
  }

  /** The loop over the routes of d. */
  method VisitRoutes<T>(d: DirectionsResult, f: (Pos, Step) -> Option<T>) returns (items: seq<T>)
    ensures items == Items(d, f)
  {
    items := [];
    var r := 0;
    while r < |d.routes|
      invariant r <= |d.routes|
      invariant items == RouteItems(d.routes, r, f)
    {
      var pushed := VisitRoute(r, d.routes[r].legs, f);
      items := items + pushed;
      r := r + 1;
    }
  }

  /** The loop over the legs of route r. */
  method VisitRoute<T>(r: nat, legs: seq<Leg>, f: (Pos, Step) -> Option<T>) returns (pushed: seq<T>)
    ensures pushed == LegItems(r, legs, |legs|, f)
  {
    pushed := [];
    var l := 0;
    while l < |legs|
      invariant l <= |legs|
      invariant pushed == LegItems(r, legs, l, f)
    {
      var legPushed := VisitLeg(r, l, legs[l].steps, f);
      pushed := pushed + legPushed;
      l := l + 1;
    }
  }

  /** The loop over the steps of leg l of route r: one call of the body per
      step. */
  method VisitLeg<T>(r: nat, l: nat, steps: seq<Step>, f: (Pos, Step) -> Option<T>) returns (pushed: seq<T>)
    ensures pushed == StepItems(r, l, steps, |steps|, f)
  {
    pushed := [];
    var s := 0;
    while s < |steps|
      invariant s <= |steps|
      invariant pushed == StepItems(r, l, steps, s, f)
    {
      var item := f(Pos(r, l, s), steps[s]);
      if item.Some? {
        pushed := pushed + [item.value];
      }
      s := s + 1;
    }
  }

  /** The positions at which the body pushes something, in visiting order:
      a reference enumeration against which the items are characterized. */
  function StepPositions<T>(r: nat, l: nat, steps: seq<Step>, n: nat, f: (Pos, Step) -> Option<T>): seq<Pos>
    requires n <= |steps|
  {
    if n == 0 then []
    else StepPositions(r, l, steps, n - 1, f) + (if f(Pos(r, l, n - 1), steps[n - 1]).Some? then [Pos(r, l, n - 1)] else [])
  }

  function LegPositions<T>(r: nat, legs: seq<Leg>, n: nat, f: (Pos, Step) -> Option<T>): seq<Pos>
    requires n <= |legs|
  {
    if n == 0 then [] else LegPositions(r, legs, n - 1, f) + StepPositions(r, n - 1, legs[n - 1].steps, |legs[n - 1].steps|, f)
  }

  function RoutePositions<T>(routes: seq<Route>, n: nat, f: (Pos, Step) -> Option<T>): seq<Pos>
    requires n <= |routes|
  {
    if n == 0 then [] else RoutePositions(routes, n - 1, f) + LegPositions(n - 1, routes[n - 1].legs, |routes[n - 1].legs|, f)
  }

  function ItemPositions<T>(d: DirectionsResult, f: (Pos, Step) -> Option<T>): seq<Pos> {
    RoutePositions(d.routes, |d.routes|, f)
  }

  /** items[k] is what the body pushes for the step of d at ps[k]. */
  ghost predicate Aligned<T>(d: DirectionsResult, items: seq<T>, ps: seq<Pos>, f: (Pos, Step) -> Option<T>) {
    && |items| == |ps|
    && forall k :: 0 <= k < |ps| ==> ValidPos(d, ps[k]) && f(ps[k], StepAt(d, ps[k])) == Some(items[k])
  }

  lemma AlignedAppend<T>(d: DirectionsResult, s1: seq<T>, p1: seq<Pos>, s2: seq<T>, p2: seq<Pos>, f: (Pos, Step) -> Option<T>)
    requires Aligned(d, s1, p1, f) && Aligned(d, s2, p2, f)
    ensures Aligned(d, s1 + s2, p1 + p2, f)
  {
    var items, ps := s1 + s2, p1 + p2;
    forall k | 0 <= k < |ps| ensures ValidPos(d, ps[k]) && f(ps[k], StepAt(d, ps[k])) == Some(items[k]) {
      if k < |p1| {
        assert ps[k] == p1[k] && items[k] == s1[k];
      } else {
        assert ps[k] == p2[k - |p1|] && items[k] == s2[k - |p1|];
      }
    }
  }

  lemma {:induction false} StepsAligned<T>(d: DirectionsResult, r: nat, l: nat, n: nat, f: (Pos, Step) -> Option<T>)
    requires r < |d.routes| && l < |d.routes[r].legs| && n <= |d.routes[r].legs[l].steps|
    ensures Aligned(d, StepItems(r, l, d.routes[r].legs[l].steps, n, f), StepPositions(r, l, d.routes[r].legs[l].steps, n, f), f)
  {
    if n > 0 {
      var steps := d.routes[r].legs[l].steps;
      StepsAligned(d, r, l, n - 1, f);
      var p := Pos(r, l, n - 1);
      assert ValidPos(d, p) && StepAt(d, p) == steps[n - 1];
      AlignedAppend(d, StepItems(r, l, steps, n - 1, f), StepPositions(r, l, steps, n - 1, f),
        Emitted(f(p, steps[n - 1])), if f(p, steps[n - 1]).Some? then [p] else [], f);
    }
  }

  lemma {:induction false} LegsAligned<T>(d: DirectionsResult, r: nat, n: nat, f: (Pos, Step) -> Option<T>)
    requires r < |d.routes| && n <= |d.routes[r].legs|
    ensures Aligned(d, LegItems(r, d.routes[r].legs, n, f), LegPositions(r, d.routes[r].legs, n, f), f)
  {
    if n > 0 {
      var legs := d.routes[r].legs;
      LegsAligned(d, r, n - 1, f);
      StepsAligned(d, r, n - 1, |legs[n - 1].steps|, f);
      AlignedAppend(d, LegItems(r, legs, n - 1, f), LegPositions(r, legs, n - 1, f),
        StepItems(r, n - 1, legs[n - 1].steps, |legs[n - 1].steps|, f), StepPositions(r, n - 1, legs[n - 1].steps, |legs[n - 1].steps|, f), f);
    }
  }

  lemma {:induction false} RoutesAligned<T>(d: DirectionsResult, n: nat, f: (Pos, Step) -> Option<T>)
    requires n <= |d.routes|
    ensures Aligned(d, RouteItems(d.routes, n, f), RoutePositions(d.routes, n, f), f)
  {
    if n > 0 {
      var routes := d.routes;
      RoutesAligned(d, n - 1, f);
      LegsAligned(d, n - 1, |routes[n - 1].legs|, f);
      AlignedAppend(d, RouteItems(routes, n - 1, f), RoutePositions(routes, n - 1, f),
        LegItems(n - 1, routes[n - 1].legs, |routes[n - 1].legs|, f), LegPositions(n - 1, routes[n - 1].legs, |routes[n - 1].legs|, f), f);
    }
  }

  lemma {:induction false} StepPositionsShape<T>(r: nat, l: nat, steps: seq<Step>, n: nat, f: (Pos, Step) -> Option<T>)
    requires n <= |steps|
    ensures forall k :: 0 <= k < |StepPositions(r, l, steps, n, f)| ==>
      var p := StepPositions(r, l, steps, n, f)[k]; p.route == r && p.leg == l && p.step < n
    ensures Increasing(StepPositions(r, l, steps, n, f))
  {
    if n > 0 {
      StepPositionsShape(r, l, steps, n - 1, f);
      var p := Pos(r, l, n - 1);
      var q: seq<Pos> := if f(p, steps[n - 1]).Some? then [p] else [];
      IncreasingAppend(StepPositions(r, l, steps, n - 1, f), q);
    }
  }

  lemma {:induction false} LegPositionsShape<T>(r: nat, legs: seq<Leg>, n: nat, f: (Pos, Step) -> Option<T>)
    requires n <= |legs|
    ensures forall k :: 0 <= k < |LegPositions(r, legs, n, f)| ==>
      var p := LegPositions(r, legs, n, f)[k]; p.route == r && p.leg < n
    ensures Increasing(LegPositions(r, legs, n, f))
  {
    if n > 0 {
      LegPositionsShape(r, legs, n - 1, f);
      StepPositionsShape(r, n - 1, legs[n - 1].steps, |legs[n - 1].steps|, f);
      IncreasingAppend(LegPositions(r, legs, n - 1, f), StepPositions(r, n - 1, legs[n - 1].steps, |legs[n - 1].steps|, f));
    }
  }

  lemma {:induction false} RoutePositionsShape<T>(routes: seq<Route>, n: nat, f: (Pos, Step) -> Option<T>)
    requires n <= |routes|
    ensures forall k :: 0 <= k < |RoutePositions(routes, n, f)| ==> RoutePositions(routes, n, f)[k].route < n
    ensures Increasing(RoutePositions(routes, n, f))
  {
    if n > 0 {
      RoutePositionsShape(routes, n - 1, f);
      LegPositionsShape(n - 1, routes[n - 1].legs, |routes[n - 1].legs|, f);
      IncreasingAppend(RoutePositions(routes, n - 1, f), LegPositions(n - 1, routes[n - 1].legs, |routes[n - 1].legs|, f));
    }
  }

  lemma {:induction false} StepPositionsComplete<T>(r: nat, l: nat, steps: seq<Step>, n: nat, s: nat, f: (Pos, Step) -> Option<T>)
    requires n <= |steps| && s < n && f(Pos(r, l, s), steps[s]).Some?
    ensures Pos(r, l, s) in StepPositions(r, l, steps, n, f)
  {
    if s < n - 1 {
      StepPositionsComplete(r, l, steps, n - 1, s, f);
    }
  }

  lemma {:induction false} LegPositionsComplete<T>(r: nat, legs: seq<Leg>, n: nat, l: nat, s: nat, f: (Pos, Step) -> Option<T>)
    requires n <= |legs| && l < n && s < |legs[l].steps| && f(Pos(r, l, s), legs[l].steps[s]).Some?
    ensures Pos(r, l, s) in LegPositions(r, legs, n, f)
  {
    if l < n - 1 {
      LegPositionsComplete(r, legs, n - 1, l, s, f);
    } else {
      StepPositionsComplete(r, l, legs[l].steps, |legs[l].steps|, s, f);
    }
  }

  lemma {:induction false} RoutePositionsComplete<T>(d: DirectionsResult, n: nat, p: Pos, f: (Pos, Step) -> Option<T>)
    requires n <= |d.routes| && p.route < n && ValidPos(d, p) && f(p, StepAt(d, p)).Some?
    ensures p in RoutePositions(d.routes, n, f)
  {
    if p.route < n - 1 {
      RoutePositionsComplete(d, n - 1, p, f);
    } else {
      LegPositionsComplete(p.route, d.routes[p.route].legs, |d.routes[p.route].legs|, p.leg, p.step, f);
    }
  }

  /** The visit pushes one item per step of d for which the body pushes
      something, in strictly increasing (route, leg, step) order: the k-th
      item is the body's item for the step at the k-th position, and every
      step for which the body pushes an item has its position listed. */
  lemma ItemsCharacterized<T>(d: DirectionsResult, f: (Pos, Step) -> Option<T>)
    ensures |Items(d, f)| == |ItemPositions(d, f)|
    ensures Increasing(ItemPositions(d, f))
    ensures forall k :: 0 <= k < |Items(d, f)| ==>
      var p := ItemPositions(d, f)[k];
      ValidPos(d, p) && f(p, StepAt(d, p)) == Some(Items(d, f)[k])
    ensures forall p :: ValidPos(d, p) && f(p, StepAt(d, p)).Some? ==> p in ItemPositions(d, f)
  {
    RoutesAligned(d, |d.routes|, f);
    RoutePositionsShape(d.routes, |d.routes|, f);
    forall p | ValidPos(d, p) && f(p, StepAt(d, p)).Some? ensures p in ItemPositions(d, f) {
      RoutePositionsComplete(d, |d.routes|, p, f);
    }
  }
}
