/** Engine::applyRules of the video module: enabled rules with equal event key and configuration are
    combined into one route, each keeping its own action. */
module RuleRoutes {
  const UINT_RANGE := 0x1_0000_0000

  datatype EventInfo = EventInfo(title: string, key: string, configuration: map<string, string>)
  datatype ActionInfo = ActionInfo(dest: string, key: string, configuration: map<string, string>)
  datatype RuleInfo = RuleInfo(id: nat, isDisabled: bool, event: EventInfo, action: ActionInfo)

  datatype Route = Route(event: EventInfo, actions: map<nat, ActionInfo>)

  predicate Same(a: EventInfo, b: EventInfo) {
    a.key == b.key && a.configuration == b.configuration
  }

  function Enabled(rules: seq<RuleInfo>): (r: seq<RuleInfo>)
    ensures forall x :: x in r <==> x in rules && !x.isDisabled
    ensures |r| <= |rules|
  {
    if rules == [] then []
    else (if rules[0].isDisabled then [] else [rules[0]]) + Enabled(rules[1..])
  }

  predicate DistinctIds(rules: seq<RuleInfo>) {
    forall i, j :: 0 <= i < j < |rules| ==> rules[i].id != rules[j].id
  }

  lemma {:induction false} EnabledDistinct(rules: seq<RuleInfo>)
    requires DistinctIds(rules)
    ensures DistinctIds(Enabled(rules))
  {
    if rules != [] {
      EnabledDistinct(rules[1..]);
      var rest := Enabled(rules[1..]);
      forall j | 0 <= j < |rest| ensures rest[j].id != rules[0].id {
        assert rest[j] in rest;
        var k :| 0 <= k < |rules[1..]| && rules[1..][k] == rest[j];
        assert rules[k + 1] == rest[j];
      }
    }
  }

  /** The route holds the rule under its id with its own action. */
  predicate Holds(route: Route, r: RuleInfo) {
    r.id in route.actions && route.actions[r.id] == r.action
  }

  /** Everything in the route is an enabled rule with the route's event key and configuration. */
  predicate Grouped(route: Route, pool: seq<RuleInfo>) {
    forall id :: id in route.actions ==>
      exists i :: 0 <= i < |pool| && pool[i].id == id && Same(pool[i].event, route.event) && Holds(route, pool[i])
  }

  predicate InSome(routes: seq<Route>, r: RuleInfo) {
    exists k :: 0 <= k < |routes| && Holds(routes[k], r)
  }

  predicate Within(rules: seq<RuleInfo>, pool: seq<RuleInfo>) {
    forall x :: x in rules ==> x in pool
  }

  predicate AllGrouped(routes: seq<Route>, pool: seq<RuleInfo>) {
    forall k :: 0 <= k < |routes| ==> Grouped(routes[k], pool)
  }

  predicate Placed(pool: seq<RuleInfo>, rules: seq<RuleInfo>, routes: seq<Route>) {
    forall x :: x in pool ==> x in rules || InSome(routes, x)
  }

  predicate Untouched(rules: seq<RuleInfo>, routes: seq<Route>) {
    forall k, x :: 0 <= k < |routes| && x in rules ==> !Same(x.event, routes[k].event)
  }

  predicate DistinctEvents(routes: seq<Route>) {
    forall k, l :: 0 <= k < l < |routes| ==> !Same(routes[k].event, routes[l].event)
  }

  /** Part of the pool is in routes with different events, the rest is still in the list. */
  predicate Progress(pool: seq<RuleInfo>, rules: seq<RuleInfo>, routes: seq<Route>) {
    && DistinctIds(rules) && Within(rules, pool) && AllGrouped(routes, pool)
    && Placed(pool, rules, routes) && Untouched(rules, routes) && DistinctEvents(routes)
  }

  /** The route takes the rules with its event out of the list and leaves the others. */
  predicate Splits(list: seq<RuleInfo>, route: Route, rest: seq<RuleInfo>) {
    && Within(rest, list) && Grouped(route, list)
    && (forall x :: x in list ==> if Same(x.event, route.event) then Holds(route, x) else x in rest)
    && (forall x :: x in rest ==> !Same(x.event, route.event))
  }

  class VideoEngine {
    var enabled: bool
    var routes: seq<Route>

    constructor ()
      ensures routes == []
    {
      enabled, routes := false, [];
    }

    /** Pop the last rule and take all rules with its event out of the list. i is a 32-bit unsigned
        counter: --i after an erase at 0 wraps, and the loop's ++i wraps it back. */
    method TakeGroup(list: seq<RuleInfo>) returns (route: Route, rules: seq<RuleInfo>)
      requires list != [] && DistinctIds(list) && |list| < UINT_RANGE
      ensures |rules| < |list| && DistinctIds(rules)
      ensures route.event == list[|list| - 1].event && Splits(list, route, rules)
    {
      hide Grouped, DistinctIds;
      var r := list[|list| - 1];
      rules := list[..|list| - 1];
      var actions: map<nat, ActionInfo> := map[r.id := r.action];
      var i := 0;
      StartGroup(list);
      while i < |rules|
        invariant 0 <= i <= |rules| < |list|
        invariant DistinctIds(rules) && Within(rules, list)
        invariant r.id in actions && actions[r.id] == r.action
        invariant Grouped(Route(r.event, actions), list)
        invariant forall x :: x in list ==> x in rules || (Same(x.event, r.event) && Holds(Route(r.event, actions), x))
        invariant forall x :: x in rules ==> x.id !in actions
        invariant forall j :: 0 <= j < i ==> !Same(rules[j].event, r.event)
        decreases |rules| - i
      {
        if r.event.key == rules[i].event.key && r.event.configuration == rules[i].event.configuration {
          Erase(rules, i, r.event, actions, list);
          actions := actions[rules[i].id := rules[i].action];
          rules := rules[..i] + rules[i + 1..];
          i := if i == 0 then UINT_RANGE - 1 else i - 1;
        }
        i := (i + 1) % UINT_RANGE;
      }
      route := Route(r.event, actions);
    }

    method ApplyRules(all: seq<RuleInfo>)
      requires DistinctIds(all) && |all| < UINT_RANGE
      requires routes == []
      modifies this
      ensures enabled == exists x :: x in all && !x.isDisabled
      ensures Progress(Enabled(all), [], routes)
    {
      var rules := Enabled(all);
      EnabledDistinct(all);
      ghost var pool := rules;
      if |rules| == 0 {
        enabled := false;
      } else {
        assert rules[0] in rules;
        enabled := true;
        while |rules| > 0
          invariant Progress(pool, rules, routes) && |rules| < UINT_RANGE
          invariant enabled
          decreases |rules|
        {
          var route, rest := TakeGroup(rules);
          AddRoute(pool, rules, routes, route, rest);
          routes := routes + [route];
          rules := rest;
        }
      }
    }
  }

  lemma StartGroup(list: seq<RuleInfo>)
    requires list != [] && DistinctIds(list)
    ensures var r, rules := list[|list| - 1], list[..|list| - 1];
            && Grouped(Route(r.event, map[r.id := r.action]), list) && DistinctIds(rules) && Within(rules, list)
            && (forall x :: x in list <==> x in rules || x == r) && (forall x :: x in rules ==> x.id != r.id)
  {
    var r := list[|list| - 1];
    assert list == list[..|list| - 1] + [r];
    assert list[|list| - 1].id == r.id && Holds(Route(r.event, map[r.id := r.action]), list[|list| - 1]);
  }

  /** Moving one rule from the list into the route being built. */
  lemma Erase(rules: seq<RuleInfo>, i: nat, event: EventInfo, actions: map<nat, ActionInfo>, list: seq<RuleInfo>)
    requires i < |rules| && DistinctIds(rules) && Within(rules, list)
    requires Same(rules[i].event, event) && Grouped(Route(event, actions), list)
    requires forall x :: x in rules ==> x.id !in actions
    ensures var rest, more := rules[..i] + rules[i + 1..], actions[rules[i].id := rules[i].action];
            && DistinctIds(rest) && (forall x :: x in rules <==> x in rest || x == rules[i])
            && (forall x :: x in rest ==> x.id !in more)
            && Grouped(Route(event, more), list)
  {
    var rest, more := rules[..i] + rules[i + 1..], actions[rules[i].id := rules[i].action];
    assert rules == rules[..i] + [rules[i]] + rules[i + 1..];
    forall x | x in rest ensures x.id !in more {
      var j :| 0 <= j < |rest| && rest[j] == x;
      assert rules[if j < i then j else j + 1] == x;
    }
    assert rules[i] in list;
    forall id | id in more
      ensures exists j :: 0 <= j < |list| && list[j].id == id && Same(list[j].event, event) &&
                Holds(Route(event, more), list[j]) {
      if id == rules[i].id {
        var j :| 0 <= j < |list| && list[j] == rules[i];
        assert Holds(Route(event, more), list[j]);
      } else {
        var j :| 0 <= j < |list| && list[j].id == id && Same(list[j].event, event) &&
          Holds(Route(event, actions), list[j]);
        assert Holds(Route(event, more), list[j]);
      }
    }
  }

  lemma GroupedIn(route: Route, rules: seq<RuleInfo>, pool: seq<RuleInfo>)
    requires Grouped(route, rules) && Within(rules, pool)
    ensures Grouped(route, pool)
  {
    hide Same, Holds;
    forall id | id in route.actions
      ensures exists i :: 0 <= i < |pool| && pool[i].id == id && Same(pool[i].event, route.event) &&
                Holds(route, pool[i]) {
      var j :| 0 <= j < |rules| && rules[j].id == id && Same(rules[j].event, route.event) && Holds(route, rules[j]);
      assert rules[j] in pool;
    }
  }

  lemma InSomeMore(routes: seq<Route>, route: Route, r: RuleInfo)
    requires InSome(routes, r) || Holds(route, r)
    ensures InSome(routes + [route], r)
  {
    hide Holds;
    if InSome(routes, r) {
      var k :| 0 <= k < |routes| && Holds(routes[k], r);
      assert Holds((routes + [route])[k], r);
    } else {
      assert Holds((routes + [route])[|routes|], r);
    }
  }

  lemma AddRoute(pool: seq<RuleInfo>, rules: seq<RuleInfo>, routes: seq<Route>, route: Route, rest: seq<RuleInfo>)
    requires Progress(pool, rules, routes) && DistinctIds(rest)
    requires rules != [] && route.event == rules[|rules| - 1].event && Splits(rules, route, rest)
    ensures Progress(pool, rest, routes + [route])
  {
    hide Holds, Grouped, InSome, DistinctIds;
    GroupedIn(route, rules, pool);
    forall x | x in pool ensures x in rest || InSome(routes + [route], x) {
      if InSome(routes, x) || Holds(route, x) { InSomeMore(routes, route, x); }
    }
    assert rules[|rules| - 1] in rules;
  }

  /** The routes partition the enabled rules: each is in exactly one route and with its own action,
      nothing else is in a route, and two rules share a route exactly when their event keys and
      configurations are equal. */
  lemma RoutesPartition(pool: seq<RuleInfo>, routes: seq<Route>, i: nat, j: nat)
    requires DistinctIds(pool) && Progress(pool, [], routes) && i < |pool| && j < |pool|
    ensures InSome(routes, pool[i])
    ensures forall k, l :: 0 <= k < |routes| && 0 <= l < |routes|
                           && pool[i].id in routes[k].actions && pool[j].id in routes[l].actions ==>
                           (k == l <==> Same(pool[i].event, pool[j].event))
    ensures forall k :: 0 <= k < |routes| && pool[i].id in routes[k].actions ==> Holds(routes[k], pool[i])
    ensures forall k, id :: 0 <= k < |routes| && id in routes[k].actions ==>
              exists m :: 0 <= m < |pool| && pool[m].id == id
  {
    hide Holds, Grouped, InSome, DistinctIds, Same;
    assert pool[i] in pool && pool[i] !in [];
    SameTransitive(pool[i].event, pool[j].event);
    forall k | 0 <= k < |routes|
      ensures pool[i].id in routes[k].actions ==> Same(pool[i].event, routes[k].event) && Holds(routes[k], pool[i])
      ensures pool[j].id in routes[k].actions ==> Same(pool[j].event, routes[k].event) {
      InRoute(pool, routes[k], i);
      InRoute(pool, routes[k], j);
    }
    forall k, id | 0 <= k < |routes| && id in routes[k].actions
      ensures exists m :: 0 <= m < |pool| && pool[m].id == id {
      GroupedId(pool, routes[k], id);
    }
  }

  lemma GroupedId(pool: seq<RuleInfo>, route: Route, id: nat)
    requires Grouped(route, pool) && id in route.actions
    ensures exists m :: 0 <= m < |pool| && pool[m].id == id
  {}

  lemma SameTransitive(a: EventInfo, b: EventInfo)
    ensures forall c :: Same(a, c) && Same(b, c) ==> Same(a, b)
    ensures forall c, d :: Same(a, b) && Same(a, c) && Same(b, d) ==> Same(c, d) && Same(d, c)
  {}

  lemma InRoute(pool: seq<RuleInfo>, route: Route, i: nat)
    requires DistinctIds(pool) && Grouped(route, pool) && i < |pool|
    ensures pool[i].id in route.actions ==> Same(pool[i].event, route.event) && Holds(route, pool[i])
  {
    if pool[i].id in route.actions {
      var m :| 0 <= m < |pool| && pool[m].id == pool[i].id && Same(pool[m].event, route.event) && Holds(route, pool[m]);
    }
  }
}
