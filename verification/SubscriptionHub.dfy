/**
 The fan-out hub of the event streams: services/api/src/sse/subscription-manager.ts, with the stream
 handlers that use it, services/api/src/features/sse/stream-service.ts. An unsubscribe function
 captures a set object; set objects are numbered here in the order in which they were made, so that
 an old one can be told from the one that replaced it.
 */
module SubscriptionHub {
  import opened Common

  datatype Client = Client(
    id: nat,
    tenant: string,
    hasTenantEventAccess: bool,
    allowedProjects: Option<set<string>>,
    projectFilter: Option<string>)

  datatype Event = Event(project: Option<string>, payload: int)

  datatype Delivery = Delivery(to: Client, event: Event)

  datatype State = State(
    sets: seq<seq<Client>>,
    clients: map<string, nat>,
    captured: map<Client, nat>,
    closed: set<Client>,
    sent: seq<Delivery>)

  ghost predicate InRange(s: State) {
    && (forall t :: t in s.clients ==> s.clients[t] < |s.sets|)
    && (forall c :: c in s.captured ==> s.captured[c] < |s.sets|)
  }

  function Initial(): State { State([], map[], map[], {}, []) }

  function Other(c: Client): Client -> bool { (x: Client) => x != c }

  function OfTenant(t: string): Client -> bool { (x: Client) => x.tenant == t }

  /** clientShouldReceive */
  function ShouldReceive(c: Client, e: Event): bool {
    if c.projectFilter.Some? then e.project == c.projectFilter
    else if c.hasTenantEventAccess || c.allowedProjects.None? then true
    else e.project.Some? && e.project.value in c.allowedProjects.value
  }

  function Add(members: seq<Client>, c: Client): seq<Client> { if c in members then members else members + [c] }

  function Subscribe(s: State, c: Client): State
    requires InRange(s)
  {
    var sets := if c.tenant in s.clients then s.sets else s.sets + [[]];
    var k := if c.tenant in s.clients then s.clients[c.tenant] else |s.sets|;
    s.(sets := sets[k := Add(sets[k], c)], clients := s.clients[c.tenant := k], captured := s.captured[c := k])
  }

  /** Calls the function that the client's subscription returned. */
  function Unsubscribe(s: State, c: Client): State
    requires InRange(s) && c in s.captured
  {
    var k := s.captured[c];
    var left := Filter(s.sets[k], Other(c));
    s.(sets := s.sets[k := left], clients := if left == [] then s.clients - {c.tenant} else s.clients)
  }

  /** doCleanup of the client's stream. */
  function Cleanup(s: State, c: Client): State
    requires InRange(s)
  {
    if c in s.closed then s
    else
      var shut := s.(closed := s.closed + {c});
      if c in s.captured then Unsubscribe(shut, c) else shut
  }

  /** send of one client: nothing on a closed stream; a broken one cleans up after itself. */
  function Send(s: State, c: Client, e: Event, broken: set<Client>): State
    requires InRange(s)
  {
    if c in s.closed then s
    else if c in broken then Cleanup(s, c)
    else s.(sent := s.sent + [Delivery(c, e)])
  }

  function SendAll(s: State, members: seq<Client>, e: Event, broken: set<Client>): (r: State)
    requires InRange(s)
    ensures InRange(r)
    decreases |members|
  {
    if members == [] then s
    else if ShouldReceive(members[0], e) then SendAll(Send(s, members[0], e, broken), members[1..], e, broken)
    else SendAll(s, members[1..], e, broken)
  }

  function Publish(s: State, t: string, e: Event, broken: set<Client>): State
    requires InRange(s)
  {
    if t in s.clients then SendAll(s, s.sets[s.clients[t]], e, broken) else s
  }

  // ----- the grouping -----

  ghost predicate TenantsMatch(s: State, registered: seq<Client>) {
    forall t :: t in s.clients <==> exists c :: c in registered && c.tenant == t
  }

  ghost predicate SetsMatch(s: State, registered: seq<Client>)
    requires InRange(s)
  {
    forall t :: t in s.clients ==> s.sets[s.clients[t]] == Filter(registered, OfTenant(t))
  }

  ghost predicate CapturesMatch(s: State, registered: seq<Client>) {
    forall c :: c in registered ==> c in s.captured && c.tenant in s.clients && s.captured[c] == s.clients[c.tenant]
  }

  /** Whoever is in any set object, old or new, is in the one registered for its tenant. */
  ghost predicate MembersHome(s: State) {
    forall j, c :: 0 <= j < |s.sets| && c in s.sets[j] ==> c.tenant in s.clients && s.clients[c.tenant] == j
  }

  /**
   The map is exactly the grouping by tenant of the registered clients, in the order of their
   subscriptions and with no empty group, and each of them captured the set that is still registered.
   */
  ghost predicate Grouped(s: State, registered: seq<Client>) {
    && InRange(s) && Distinct(registered)
    && TenantsMatch(s, registered) && SetsMatch(s, registered) && CapturesMatch(s, registered) && MembersHome(s)
  }

  lemma GroupsArePlain(s: State, registered: seq<Client>, t: string, u: string)
    requires Grouped(s, registered) && t in s.clients && u in s.clients && t != u
    ensures s.sets[s.clients[t]] != [] && s.clients[t] != s.clients[u]
  {
    var c :| c in registered && c.tenant == t;
    assert c in Filter(registered, OfTenant(t));
    assert OfTenant(u)(c) == (c.tenant == u);
  }

  lemma {:induction false} FilterSwap(s: seq<Client>, p: Client -> bool, q: Client -> bool)
    ensures Filter(Filter(s, p), q) == Filter(Filter(s, q), p)
  {
    if s != [] {
      FilterSwap(s[1..], p, q);
    }
  }

  lemma FilterDistinct(s: seq<Client>, p: Client -> bool)
    requires Distinct(s)
    ensures Distinct(Filter(s, p))
  {
    FilterKeepsDistinct(s, (c: Client) => c, p);
  }

  // ----- a subscription -----

  lemma SubscribeKeepsTenants(s: State, registered: seq<Client>, c: Client)
    requires InRange(s) && TenantsMatch(s, registered)
    ensures TenantsMatch(Subscribe(s, c), registered + [c])
  {
    var s', all := Subscribe(s, c), registered + [c];
    forall t ensures t in s'.clients <==> exists x :: x in all && x.tenant == t {
      if t == c.tenant {
        assert c in all;
      } else if t in s.clients {
        var x :| x in registered && x.tenant == t;
        assert x in all;
      }
    }
  }

  lemma GroupGrows(s: State, registered: seq<Client>, c: Client, t: string)
    requires Grouped(s, registered) && c !in registered
    requires t in s.clients || t == c.tenant
    ensures var s' := Subscribe(s, c);
            t in s'.clients && s'.sets[s'.clients[t]] == Filter(registered + [c], OfTenant(t))
  {
    FilterAppend(registered, [c], OfTenant(t));
    assert Filter([c], OfTenant(t)) == if c.tenant == t then [c] else [];
    if t != c.tenant && c.tenant in s.clients {
      GroupsArePlain(s, registered, t, c.tenant);
    }
    if c.tenant !in s.clients {
      FilterNone(registered, OfTenant(c.tenant));
    }
  }

  lemma SubscribeKeepsSets(s: State, registered: seq<Client>, c: Client)
    requires Grouped(s, registered) && c !in registered
    ensures InRange(Subscribe(s, c)) && SetsMatch(Subscribe(s, c), registered + [c])
  {
    var s' := Subscribe(s, c);
    forall t | t in s'.clients ensures s'.sets[s'.clients[t]] == Filter(registered + [c], OfTenant(t)) {
      GroupGrows(s, registered, c, t);
    }
  }

  lemma SubscribeKeepsHome(s: State, c: Client)
    requires InRange(s) && MembersHome(s)
    ensures MembersHome(Subscribe(s, c))
  {
  }

  lemma SubscribeKeepsGrouping(s: State, registered: seq<Client>, c: Client)
    requires Grouped(s, registered) && c !in registered
    ensures Grouped(Subscribe(s, c), registered + [c])
  {
    SubscribeKeepsTenants(s, registered, c);
    SubscribeKeepsSets(s, registered, c);
    SubscribeKeepsHome(s, c);
    assert CapturesMatch(Subscribe(s, c), registered + [c]);
  }

  // ----- an unsubscription -----

  lemma LeftOver(s: State, registered: seq<Client>, c: Client)
    requires Grouped(s, registered) && c in registered
    ensures Filter(s.sets[s.captured[c]], Other(c)) == Filter(Filter(registered, Other(c)), OfTenant(c.tenant))
  {
    FilterSwap(registered, OfTenant(c.tenant), Other(c));
  }

  lemma OthersStay(registered: seq<Client>, c: Client, t: string)
    requires t != c.tenant
    ensures Filter(Filter(registered, Other(c)), OfTenant(t)) == Filter(registered, OfTenant(t))
  {
    FilterSwap(registered, Other(c), OfTenant(t));
    forall x | x in Filter(registered, OfTenant(t)) ensures Other(c)(x) {
      assert OfTenant(t)(x);
    }
    FilterAll(Filter(registered, OfTenant(t)), Other(c));
  }

  lemma UnsubscribeKeepsSets(s: State, registered: seq<Client>, c: Client)
    requires Grouped(s, registered) && c in registered
    ensures InRange(Unsubscribe(s, c)) && SetsMatch(Unsubscribe(s, c), Filter(registered, Other(c)))
  {
    var s' := Unsubscribe(s, c);
    forall t | t in s'.clients ensures s'.sets[s'.clients[t]] == Filter(Filter(registered, Other(c)), OfTenant(t)) {
      if t == c.tenant {
        LeftOver(s, registered, c);
      } else {
        OthersStay(registered, c, t);
        GroupsArePlain(s, registered, t, c.tenant);
      }
    }
  }

  /** The tenant stays in the map exactly if it has another client. */
  lemma TenantStaysIff(s: State, registered: seq<Client>, c: Client)
    requires Grouped(s, registered) && c in registered
    ensures c.tenant in Unsubscribe(s, c).clients <==>
            exists x :: x in Filter(registered, Other(c)) && x.tenant == c.tenant
  {
    var left, rest := Filter(s.sets[s.captured[c]], Other(c)), Filter(registered, Other(c));
    LeftOver(s, registered, c);
    forall x | x in rest && x.tenant == c.tenant ensures x in left {
      assert OfTenant(c.tenant)(x);
    }
    if left != [] {
      assert left[0] in left && OfTenant(c.tenant)(left[0]) && left[0] in rest;
    }
  }

  lemma OtherTenantStaysIff(s: State, registered: seq<Client>, c: Client, t: string)
    requires Grouped(s, registered) && c in registered && t != c.tenant
    ensures t in Unsubscribe(s, c).clients <==> exists x :: x in Filter(registered, Other(c)) && x.tenant == t
  {
    if t in s.clients {
      var x :| x in registered && x.tenant == t;
      assert x in Filter(registered, Other(c));
    }
  }

  lemma UnsubscribeKeepsTenants(s: State, registered: seq<Client>, c: Client)
    requires Grouped(s, registered) && c in registered
    ensures TenantsMatch(Unsubscribe(s, c), Filter(registered, Other(c)))
  {
    var s', rest := Unsubscribe(s, c), Filter(registered, Other(c));
    forall t ensures t in s'.clients <==> exists x :: x in rest && x.tenant == t {
      if t == c.tenant {
        TenantStaysIff(s, registered, c);
      } else {
        OtherTenantStaysIff(s, registered, c, t);
      }
    }
  }

  lemma UnsubscribeKeepsHome(s: State, registered: seq<Client>, c: Client)
    requires Grouped(s, registered) && c in registered
    ensures MembersHome(Unsubscribe(s, c))
  {
    var s', k := Unsubscribe(s, c), s.captured[c];
    LeftOver(s, registered, c);
    forall j, x | 0 <= j < |s'.sets| && x in s'.sets[j] ensures x.tenant in s'.clients && s'.clients[x.tenant] == j {
      assert x in s.sets[j];
      if x.tenant == c.tenant {
        assert j == k;
      }
    }
  }

  lemma UnsubscribeKeepsCaptures(s: State, registered: seq<Client>, c: Client)
    requires Grouped(s, registered) && c in registered
    ensures CapturesMatch(Unsubscribe(s, c), Filter(registered, Other(c)))
  {
    var s', rest := Unsubscribe(s, c), Filter(registered, Other(c));
    LeftOver(s, registered, c);
    forall x | x in rest ensures x in s'.captured && x.tenant in s'.clients && s'.captured[x] == s'.clients[x.tenant] {
      if x.tenant == c.tenant {
        assert OfTenant(c.tenant)(x);
        assert x in Filter(rest, OfTenant(c.tenant));
      }
    }
  }

  lemma UnsubscribeKeepsGrouping(s: State, registered: seq<Client>, c: Client)
    requires Grouped(s, registered) && c in registered
    ensures Grouped(Unsubscribe(s, c), Filter(registered, Other(c)))
  {
    FilterDistinct(registered, Other(c));
    UnsubscribeKeepsSets(s, registered, c);
    UnsubscribeKeepsTenants(s, registered, c);
    UnsubscribeKeepsHome(s, registered, c);
    UnsubscribeKeepsCaptures(s, registered, c);
  }

  // ----- a second call of the same function -----

  lemma MemberRegistered(s: State, registered: seq<Client>, k: nat, x: Client)
    requires Grouped(s, registered) && k < |s.sets| && x in s.sets[k]
    ensures x in registered
  {
    assert x in Filter(registered, OfTenant(x.tenant));
  }

  /**
   Calling an unsubscribe function again changes nothing, unless the set it captured has become
   empty and another one is registered for the tenant by now: then it drops that one.
   */
  lemma RepeatHarmlessIff(s: State, registered: seq<Client>, c: Client)
    requires Grouped(s, registered) && c in s.captured && c !in registered
    ensures Grouped(Unsubscribe(s, c), registered) <==> (s.sets[s.captured[c]] != [] || c.tenant !in s.clients)
    ensures Grouped(Unsubscribe(s, c), registered) ==> Unsubscribe(s, c) == s
  {
    var k, s' := s.captured[c], Unsubscribe(s, c);
    forall x | x in s.sets[k] ensures x in registered {
      MemberRegistered(s, registered, k, x);
    }
    FilterAll(s.sets[k], Other(c));
    assert s.sets[k := s.sets[k]] == s.sets;
    if s.sets[k] == [] && c.tenant in s.clients {
      assert c.tenant !in s'.clients;
      assert !TenantsMatch(s', registered);
    } else if s.sets[k] == [] {
      assert s.clients - {c.tenant} == s.clients;
    }
  }

  // ----- a publication -----

  function Survives(members: seq<Client>, e: Event, broken: set<Client>, closed: set<Client>): Client -> bool {
    (x: Client) => !(x in members && ShouldReceive(x, e) && x in broken && x !in closed)
  }

  function Receives(e: Event, broken: set<Client>, closed: set<Client>): Client -> bool {
    (x: Client) => ShouldReceive(x, e) && x !in broken && x !in closed
  }

  function ToDelivery(e: Event): Client -> Delivery { (x: Client) => Delivery(x, e) }

  function Deliveries(members: seq<Client>, e: Event, broken: set<Client>, closed: set<Client>): seq<Delivery> {
    Map(Filter(members, Receives(e, broken, closed)), ToDelivery(e))
  }

  lemma {:induction false} FilterBoth(s: seq<Client>, p: Client -> bool, q: Client -> bool, both: Client -> bool)
    requires forall x :: x in s ==> both(x) == (p(x) && q(x))
    ensures Filter(Filter(s, p), q) == Filter(s, both)
  {
    if s != [] {
      FilterBoth(s[1..], p, q, both);
    }
  }

  /** The flag of a stream has no part in the grouping. */
  lemma ShutStaysGrouped(s: State, registered: seq<Client>, c: Client)
    requires Grouped(s, registered)
    ensures Grouped(s.(closed := s.closed + {c}), registered)
  {
  }

  lemma BreakingKeepsGrouping(s: State, registered: seq<Client>, c: Client)
    requires Grouped(s, registered) && c in registered && c !in s.closed
    ensures InRange(Cleanup(s, c)) && Grouped(Cleanup(s, c), Filter(registered, Other(c)))
  {
    ShutStaysGrouped(s, registered, c);
    UnsubscribeKeepsGrouping(s.(closed := s.closed + {c}), registered, c);
  }

  lemma SentStaysGrouped(s: State, registered: seq<Client>, sent: seq<Delivery>)
    requires Grouped(s, registered)
    ensures Grouped(s.(sent := sent), registered)
  {
  }

  /** Sending to one client: it leaves exactly if it should receive, is open, and is broken. */
  lemma SendKeepsGrouping(s: State, registered: seq<Client>, c: Client, e: Event, broken: set<Client>)
    requires Grouped(s, registered) && c in registered && ShouldReceive(c, e)
    ensures InRange(Send(s, c, e, broken))
    ensures Grouped(Send(s, c, e, broken), if c in broken && c !in s.closed then Filter(registered, Other(c))
                    else registered)
  {
    if c !in s.closed && c in broken {
      BreakingKeepsGrouping(s, registered, c);
    } else {
      SentStaysGrouped(s, registered, s.sent + [Delivery(c, e)]);
    }
  }

  lemma SurvivorsOfRest(registered: seq<Client>, members: seq<Client>, e: Event, broken: set<Client>,
                        closed: set<Client>)
    requires members != [] && Distinct(members)
    ensures
      var m, all := members[0], Filter(registered, Survives(members, e, broken, closed));
      if ShouldReceive(m, e) && m in broken && m !in closed then
        Filter(Filter(registered, Other(m)), Survives(members[1..], e, broken, closed + {m})) == all
      else
        Filter(registered, Survives(members[1..], e, broken, closed)) == all
  {
    var m := members[0];
    if ShouldReceive(m, e) && m in broken && m !in closed {
      FilterBoth(registered, Other(m), Survives(members[1..], e, broken, closed + {m}),
                 Survives(members, e, broken, closed));
    } else {
      FilterCongruent(registered, Survives(members[1..], e, broken, closed), Survives(members, e, broken, closed));
    }
  }

  lemma FirstDelivery(members: seq<Client>, e: Event, broken: set<Client>, closed: set<Client>)
    requires members != []
    ensures Deliveries(members, e, broken, closed)
         == (if Receives(e, broken, closed)(members[0]) then [Delivery(members[0], e)] else [])
            + Deliveries(members[1..], e, broken, closed)
  {
    var p := Receives(e, broken, closed);
    var rest := Filter(members[1..], p);
    MapFirst(members[0], rest, ToDelivery(e));
    assert Filter(members, p) == if p(members[0]) then [members[0]] + rest else rest;
  }

  /** Once served, a client's stream does not matter to those after it. */
  lemma DeliveriesOfRest(members: seq<Client>, e: Event, broken: set<Client>, closed: set<Client>)
    requires members != [] && Distinct(members)
    ensures Deliveries(members[1..], e, broken, closed + {members[0]}) == Deliveries(members[1..], e, broken, closed)
  {
    var m, rest := members[0], members[1..];
    forall x | x in rest ensures x != m {
      var i :| 0 <= i < |rest| && rest[i] == x;
      assert members[i + 1] == x;
    }
    FilterCongruent(rest, Receives(e, broken, closed + {m}), Receives(e, broken, closed));
  }

  ghost predicate SentTo(s: State, r: State, members: seq<Client>, e: Event, broken: set<Client>) {
    r.sent == s.sent + Deliveries(members, e, broken, s.closed)
  }

  /** What serving one client adds to what was sent, and whom it closes. */
  lemma Served(s: State, s1: State, m: Client, e: Event, broken: set<Client>)
    requires InRange(s) && s1 == if ShouldReceive(m, e) then Send(s, m, e, broken) else s
    ensures s1.sent == s.sent + if Receives(e, broken, s.closed)(m) then [Delivery(m, e)] else []
    ensures s1.closed == s.closed || s1.closed == s.closed + {m}
  {
  }

  lemma DeliverThenRest(s: State, s1: State, r: State, members: seq<Client>, e: Event, broken: set<Client>)
    requires InRange(s) && members != [] && Distinct(members)
    requires s1 == if ShouldReceive(members[0], e) then Send(s, members[0], e, broken) else s
    requires SentTo(s1, r, members[1..], e, broken)
    ensures SentTo(s, r, members, e, broken)
  {
    var first := if Receives(e, broken, s.closed)(members[0]) then [Delivery(members[0], e)] else [];
    var rest := Deliveries(members[1..], e, broken, s.closed);
    Served(s, s1, members[0], e, broken);
    FirstDelivery(members, e, broken, s.closed);
    DeliveriesOfRest(members, e, broken, s.closed);
    assert Deliveries(members[1..], e, broken, s1.closed) == rest;
    JoinSent(s.sent, first, rest, s1.sent, r.sent);
  }

  lemma JoinSent(before: seq<Delivery>, first: seq<Delivery>, rest: seq<Delivery>, between: seq<Delivery>,
                 after: seq<Delivery>)
    requires between == before + first && after == between + rest
    ensures after == before + (first + rest)
  {
  }

  lemma {:induction false} SendAllDelivers(s: State, members: seq<Client>, e: Event, broken: set<Client>)
    requires InRange(s) && Distinct(members)
    ensures SentTo(s, SendAll(s, members, e, broken), members, e, broken)
    decreases |members|
  {
    if members == [] {
      NoDeliveries(s, e, broken);
    } else {
      var s1 := if ShouldReceive(members[0], e) then Send(s, members[0], e, broken) else s;
      SendAllDelivers(s1, members[1..], e, broken);
      DeliverThenRest(s, s1, SendAll(s, members, e, broken), members, e, broken);
    }
  }

  lemma NoDeliveries(s: State, e: Event, broken: set<Client>)
    ensures SentTo(s, s, [], e, broken)
  {
  }

  /** Whoever is registered while the rest of the members is served. */
  function After(registered: seq<Client>, m: Client, e: Event, broken: set<Client>, closed: set<Client>): seq<Client> {
    if ShouldReceive(m, e) && m in broken && m !in closed then Filter(registered, Other(m)) else registered
  }

  lemma RestStillRegistered(registered: seq<Client>, members: seq<Client>, e: Event, broken: set<Client>,
                            closed: set<Client>)
    requires members != [] && Distinct(members) && forall x :: x in members ==> x in registered
    ensures Distinct(members[1..])
    ensures forall x :: x in members[1..] ==> x in After(registered, members[0], e, broken, closed)
  {
    forall x | x in members[1..] ensures x in members && x != members[0] {
      var i :| 0 <= i < |members[1..]| && members[1..][i] == x;
      assert members[i + 1] == x;
    }
  }

  ghost predicate LeavesGrouped(s: State, registered: seq<Client>, members: seq<Client>, e: Event, broken: set<Client>)
    requires InRange(s)
  {
    Grouped(SendAll(s, members, e, broken), Filter(registered, Survives(members, e, broken, s.closed)))
  }

  lemma SendThenRest(s: State, registered: seq<Client>, members: seq<Client>, e: Event, broken: set<Client>)
    requires InRange(s) && members != [] && Distinct(members)
    requires var m := members[0];
             var s1 := if ShouldReceive(m, e) then Send(s, m, e, broken) else s;
             LeavesGrouped(s1, After(registered, m, e, broken, s.closed), members[1..], e, broken)
    ensures LeavesGrouped(s, registered, members, e, broken)
  {
    SurvivorsOfRest(registered, members, e, broken, s.closed);
  }

  lemma {:induction false} SendAllKeepsGrouping(s: State, registered: seq<Client>, members: seq<Client>, e: Event,
                                                broken: set<Client>)
    requires Grouped(s, registered) && Distinct(members) && forall x :: x in members ==> x in registered
    ensures LeavesGrouped(s, registered, members, e, broken)
    decreases |members|
  {
    if members == [] {
      FilterAll(registered, Survives(members, e, broken, s.closed));
    } else {
      var m := members[0];
      if ShouldReceive(m, e) {
        SendKeepsGrouping(s, registered, m, e, broken);
      }
      RestStillRegistered(registered, members, e, broken, s.closed);
      var s1 := if ShouldReceive(m, e) then Send(s, m, e, broken) else s;
      SendAllKeepsGrouping(s1, After(registered, m, e, broken, s.closed), members[1..], e, broken);
      SendThenRest(s, registered, members, e, broken);
    }
  }

  /** What a publication leaves registered: all but the open, eligible, broken clients of the tenant. */
  function Outlasts(t: string, e: Event, broken: set<Client>, closed: set<Client>): Client -> bool {
    (x: Client) => !(x.tenant == t && ShouldReceive(x, e) && x in broken && x !in closed)
  }

  /** Whom a publication reaches. */
  function Reaches(t: string, e: Event, broken: set<Client>, closed: set<Client>): Client -> bool {
    (x: Client) => x.tenant == t && ShouldReceive(x, e) && x !in broken && x !in closed
  }

  lemma PublishKeepsGrouping(s: State, registered: seq<Client>, t: string, e: Event, broken: set<Client>)
    requires Grouped(s, registered)
    ensures InRange(Publish(s, t, e, broken))
    ensures Grouped(Publish(s, t, e, broken), Filter(registered, Outlasts(t, e, broken, s.closed)))
  {
    if t in s.clients {
      var members := Filter(registered, OfTenant(t));
      FilterDistinct(registered, OfTenant(t));
      forall x | x in registered
        ensures Survives(members, e, broken, s.closed)(x) == Outlasts(t, e, broken, s.closed)(x) {
        assert x in members <==> x.tenant == t;
      }
      FilterCongruent(registered, Survives(members, e, broken, s.closed), Outlasts(t, e, broken, s.closed));
      SendAllKeepsGrouping(s, registered, members, e, broken);
    } else {
      FilterAll(registered, Outlasts(t, e, broken, s.closed));
    }
  }

  /**
   A publication sends the event once to each registered, eligible client of the tenant whose stream
   is open and takes it, in the order of their subscriptions, and to nobody else.
   */
  lemma PublishSendsOnce(s: State, registered: seq<Client>, t: string, e: Event, broken: set<Client>)
    requires Grouped(s, registered)
    ensures Publish(s, t, e, broken).sent
            == s.sent + Map(Filter(registered, Reaches(t, e, broken, s.closed)), ToDelivery(e))
  {
    if t in s.clients {
      FilterDistinct(registered, OfTenant(t));
      SendAllDelivers(s, Filter(registered, OfTenant(t)), e, broken);
      FilterBoth(registered, OfTenant(t), Receives(e, broken, s.closed), Reaches(t, e, broken, s.closed));
    } else {
      FilterNone(registered, Reaches(t, e, broken, s.closed));
    }
  }

  // ----- every run -----

  datatype Happening = Subscribed(client: Client) | Closed(client: Client)
    | Published(tenant: string, event: Event, broken: set<Client>)

  function Step(s: State, h: Happening): (r: State)
    requires InRange(s)
    ensures InRange(r)
  {
    match h
    case Subscribed(c) => Subscribe(s, c)
    case Closed(c) => Cleanup(s, c)
    case Published(t, e, broken) => Publish(s, t, e, broken)
  }

  function Run(hs: seq<Happening>): (r: State)
    ensures InRange(r)
  {
    if hs == [] then Initial() else Step(Run(hs[..|hs| - 1]), hs[|hs| - 1])
  }

  /** Each stream subscribes one client object, once. */
  ghost predicate SubscribedOnce(hs: seq<Happening>) {
    forall i, j :: 0 <= i < j < |hs| && hs[i].Subscribed? && hs[j].Subscribed? ==> hs[i].client != hs[j].client
  }

  /** The clients whose stream was already closed when it came to subscribe them. */
  function ClosedFirst(hs: seq<Happening>): set<Client> {
    if hs == [] then {}
    else
      var front, h := hs[..|hs| - 1], hs[|hs| - 1];
      ClosedFirst(front) + if h.Subscribed? && h.client in Run(front).closed then {h.client} else {}
  }

  /** The registered clients, in the order of their subscriptions, told from the history alone. */
  function Registered(hs: seq<Happening>): seq<Client> {
    if hs == [] then []
    else
      var front, h := hs[..|hs| - 1], hs[|hs| - 1];
      var before, closed := Registered(front), Run(front).closed;
      match h
      case Subscribed(c) => before + [c]
      case Closed(c) => if c in closed then before else Filter(before, Other(c))
      case Published(t, e, broken) => Filter(before, Outlasts(t, e, broken, closed))
  }

  /** Registered means subscribed and not closed since. */
  ghost predicate Accounted(s: State, registered: seq<Client>, closedFirst: set<Client>) {
    forall c :: c in registered <==> c in s.captured && (c !in s.closed || c in closedFirst)
  }

  lemma SubscribeAccounts(s: State, registered: seq<Client>, closedFirst: set<Client>, c: Client)
    requires InRange(s) && Accounted(s, registered, closedFirst) && c !in s.captured
    ensures Accounted(Subscribe(s, c), registered + [c], closedFirst + if c in s.closed then {c} else {})
  {
  }

  lemma CleanupAccounts(s: State, registered: seq<Client>, closedFirst: set<Client>, c: Client)
    requires InRange(s) && Accounted(s, registered, closedFirst) && closedFirst <= s.closed && c !in s.closed
    ensures Accounted(Cleanup(s, c), Filter(registered, Other(c)), closedFirst)
  {
  }

  lemma CleanupKeepsGrouping(s: State, registered: seq<Client>, closedFirst: set<Client>, c: Client)
    requires Grouped(s, registered) && Accounted(s, registered, closedFirst) && c !in s.closed
    ensures Grouped(Cleanup(s, c), Filter(registered, Other(c)))
  {
    var shut := s.(closed := s.closed + {c});
    assert Grouped(shut, registered);
    if c in s.captured {
      UnsubscribeKeepsGrouping(shut, registered, c);
    } else {
      FilterAll(registered, Other(c));
    }
  }

  lemma {:induction false} SendAllCloses(s: State, members: seq<Client>, e: Event, broken: set<Client>, x: Client)
    requires InRange(s)
    ensures SendAll(s, members, e, broken).captured == s.captured
    ensures x in SendAll(s, members, e, broken).closed <==>
            x in s.closed || (x in members && ShouldReceive(x, e) && x in broken)
    decreases |members|
  {
    if members != [] {
      var s1 := if ShouldReceive(members[0], e) then Send(s, members[0], e, broken) else s;
      SendAllCloses(s1, members[1..], e, broken, x);
      assert x in members <==> x == members[0] || x in members[1..];
    }
  }

  lemma PublishCloses(s: State, registered: seq<Client>, t: string, e: Event, broken: set<Client>, x: Client)
    requires Grouped(s, registered)
    ensures var r := Publish(s, t, e, broken);
            && r.captured == s.captured
            && (x in r.closed <==> x in s.closed || (x in registered && !Outlasts(t, e, broken, s.closed)(x)))
  {
    if t in s.clients {
      SendAllCloses(s, s.sets[s.clients[t]], e, broken, x);
      assert x in s.sets[s.clients[t]] <==> x in registered && OfTenant(t)(x);
    }
  }

  lemma PublishAccounts(s: State, registered: seq<Client>, closedFirst: set<Client>, t: string, e: Event,
                        broken: set<Client>)
    requires Grouped(s, registered) && Accounted(s, registered, closedFirst) && closedFirst <= s.closed
    ensures var r := Publish(s, t, e, broken);
            && Accounted(r, Filter(registered, Outlasts(t, e, broken, s.closed)), closedFirst)
            && s.closed <= r.closed && r.captured == s.captured
  {
    forall x ensures PublishOnly(s, registered, t, e, broken, x) {
      PublishCloses(s, registered, t, e, broken, x);
    }
    var r := Publish(s, t, e, broken);
    assert PublishOnly(s, registered, t, e, broken, Client(0, t, true, None, None));
    forall x ensures x in s.closed ==> x in r.closed {
      assert PublishOnly(s, registered, t, e, broken, x);
    }
    forall x ensures x in Filter(registered, Outlasts(t, e, broken, s.closed)) <==>
        x in r.captured && (x !in r.closed || x in closedFirst) {
      assert PublishOnly(s, registered, t, e, broken, x);
    }
  }

  ghost predicate PublishOnly(s: State, registered: seq<Client>, t: string, e: Event, broken: set<Client>, x: Client)
    requires InRange(s)
  {
    var r := Publish(s, t, e, broken);
    && r.captured == s.captured
    && (x in r.closed <==> x in s.closed || (x in registered && !Outlasts(t, e, broken, s.closed)(x)))
  }

  ghost predicate WasSubscribed(hs: seq<Happening>, c: Client) { exists i :: 0 <= i < |hs| && hs[i] == Subscribed(c) }

  /** Everything that holds after a run. */
  ghost predicate Sound(hs: seq<Happening>) {
    && Grouped(Run(hs), Registered(hs))
    && Accounted(Run(hs), Registered(hs), ClosedFirst(hs))
    && ClosedFirst(hs) <= Run(hs).closed
    && forall c :: c in Run(hs).captured ==> WasSubscribed(hs, c)
  }

  lemma SubscribedStaysSound(hs: seq<Happening>, c: Client)
    requires Sound(hs) && !WasSubscribed(hs, c)
    ensures Sound(hs + [Subscribed(c)])
  {
    var all, s := hs + [Subscribed(c)], Run(hs);
    assert all[..|hs|] == hs;
    SubscribeKeepsGrouping(s, Registered(hs), c);
    SubscribeAccounts(s, Registered(hs), ClosedFirst(hs), c);
    forall x | x in Run(all).captured ensures WasSubscribed(all, x) {
      if x == c {
        assert all[|hs|] == Subscribed(x);
      } else {
        SubscribedBefore(hs, Subscribed(c), x);
      }
    }
  }

  lemma SubscribedBefore(hs: seq<Happening>, h: Happening, x: Client)
    requires WasSubscribed(hs, x)
    ensures WasSubscribed(hs + [h], x)
  {
    var i :| 0 <= i < |hs| && hs[i] == Subscribed(x);
    assert (hs + [h])[i] == Subscribed(x);
  }

  lemma ClosedStaysSound(hs: seq<Happening>, c: Client)
    requires Sound(hs)
    ensures Sound(hs + [Closed(c)])
  {
    var all, s := hs + [Closed(c)], Run(hs);
    assert all[..|hs|] == hs;
    if c !in s.closed {
      CleanupKeepsGrouping(s, Registered(hs), ClosedFirst(hs), c);
      CleanupAccounts(s, Registered(hs), ClosedFirst(hs), c);
    }
    forall x | x in Run(all).captured ensures WasSubscribed(all, x) {
      SubscribedBefore(hs, Closed(c), x);
    }
  }

  lemma PublishedStaysSound(hs: seq<Happening>, t: string, e: Event, broken: set<Client>)
    requires Sound(hs)
    ensures Sound(hs + [Published(t, e, broken)])
  {
    var h, s := Published(t, e, broken), Run(hs);
    var all := hs + [h];
    assert all[..|hs|] == hs;
    PublishKeepsGrouping(s, Registered(hs), t, e, broken);
    PublishAccounts(s, Registered(hs), ClosedFirst(hs), t, e, broken);
    forall x | x in Run(all).captured ensures WasSubscribed(all, x) {
      SubscribedBefore(hs, h, x);
    }
  }

  lemma NotYetSubscribed(hs: seq<Happening>, c: Client)
    requires SubscribedOnce(hs + [Subscribed(c)])
    ensures !WasSubscribed(hs, c)
  {
    var all := hs + [Subscribed(c)];
    forall i | 0 <= i < |hs| ensures hs[i] != Subscribed(c) {
      assert all[i] == hs[i] && all[|hs|] == Subscribed(c);
    }
  }

  lemma {:induction false} RunsAreSound(hs: seq<Happening>)
    requires SubscribedOnce(hs)
    ensures Sound(hs)
    decreases |hs|
  {
    if hs != [] {
      var front, h := hs[..|hs| - 1], hs[|hs| - 1];
      assert hs == front + [h];
      RunsAreSound(front);
      match h {
        case Subscribed(c) =>
          NotYetSubscribed(front, c);
          SubscribedStaysSound(front, c);
        case Closed(c) => ClosedStaysSound(front, c);
        case Published(t, e, broken) => PublishedStaysSound(front, t, e, broken);
      }
    }
  }

  /**
   After every run in which each client object is subscribed once, closed streams, broken streams and
   publications in any order, the map is exactly the grouping by tenant of the registered clients,
   without empty sets, and each of them captured the set still registered.
   */
  lemma HubIsGrouping(hs: seq<Happening>)
    requires SubscribedOnce(hs)
    ensures Grouped(Run(hs), Registered(hs))
  {
    RunsAreSound(hs);
  }

  lemma ClosedOnce(hs: seq<Happening>, c: Client)
    requires c !in Run(hs).closed
    ensures Run(hs + [Closed(c)]) == Cleanup(Run(hs), c)
            && Registered(hs + [Closed(c)]) == Filter(Registered(hs), Other(c))
  {
    assert (hs + [Closed(c)])[..|hs|] == hs;
  }

  lemma CleanupCloses(s: State, c: Client)
    requires InRange(s)
    ensures InRange(Cleanup(s, c)) && Cleanup(Cleanup(s, c), c) == Cleanup(s, c)
  {
  }

  /** The flag of a stream makes its unsubscribe function run once at most: the harmful second call never comes. */
  lemma CleanupUnsubscribesOnce(hs: seq<Happening>, c: Client)
    requires SubscribedOnce(hs) && c in Run(hs).captured && c !in Run(hs).closed
    ensures c in Registered(hs) && c !in Registered(hs + [Closed(c)])
    ensures Cleanup(Run(hs + [Closed(c)]), c) == Run(hs + [Closed(c)])
  {
    RunsAreSound(hs);
    ClosedOnce(hs, c);
    CleanupCloses(Run(hs), c);
  }

  /**
   A stream that is closed while it replays missed events has nothing to unsubscribe yet, and its
   later cleanups do nothing: a subscribed client leaves with its stream exactly if the stream was
   still open when it was subscribed.
   */
  lemma LeavesWithItsStreamIff(hs: seq<Happening>, c: Client)
    requires SubscribedOnce(hs) && c in Run(hs).closed && c in Run(hs).captured
    ensures c !in Registered(hs) <==> c !in ClosedFirst(hs)
  {
    RunsAreSound(hs);
  }

  lemma ClosedDuringReplayStays(c: Client)
    ensures var hs := [Closed(c), Subscribed(c), Closed(c)];
            c in Run(hs).closed && Registered(hs) == [c] && Run(hs).clients == map[c.tenant := 0]
  {
    var a, b, d := [Closed(c)], [Closed(c), Subscribed(c)], [Closed(c), Subscribed(c), Closed(c)];
    assert a[..0] == [] && b[..1] == a && d[..2] == b;
    assert Run(a).closed == {c} && Run(a).clients == map[];
    assert Registered(a) == [];
    assert Registered(b) == [c];
  }

  lemma NewTenant(s: State, c: Client)
    requires InRange(s) && c.tenant !in s.clients
    ensures var r := Subscribe(s, c);
            r.sets == s.sets + [[c]] && r.clients == s.clients[c.tenant := |s.sets|]
                && r.captured == s.captured[c := |s.sets|]
  {
    assert Add([], c) == [c];
  }

  /** A second call of an old unsubscribe function drops the set that replaced the old one, here with b in it. */
  lemma SecondCallDropsNewerSet(a: Client, b: Client)
    requires a != b && a.tenant == b.tenant
    ensures var hs := [Subscribed(a), Closed(a), Subscribed(b)];
            b in Registered(hs) && a in Run(hs).captured && a.tenant !in Unsubscribe(Run(hs), a).clients
  {
    var x, y, z := [Subscribed(a)], [Subscribed(a), Closed(a)], [Subscribed(a), Closed(a), Subscribed(b)];
    assert x[..0] == [] && y[..1] == x && z[..2] == y;
    NewTenant(Initial(), a);
    assert Run(x).sets == [[a]];
    assert Filter([a], Other(a)) == [];
    assert Run(y).sets == [[]] && a.tenant !in Run(y).clients;
    NewTenant(Run(y), b);
    assert Registered(z) == Registered(y) + [b];
    assert Filter([], Other(a)) == [];
  }
}
