/**
 The subscription manager itself: services/api/src/sse/subscription-manager.ts. Its Map of Set objects
 is a map of ClientSet references, and each unsubscribe function keeps the reference it captured.
 The flag and the unsubscribe function of each stream, and what its send wrote, are kept beside it.
 */
module SubscriptionManagers {
  import opened Common
  import opened SubscriptionHub

  /** A JavaScript Set: no element twice, in the order of insertion. */
  class ClientSet {
    var members: seq<Client>

    constructor ()
      ensures members == []
    {
      members := [];
    }
  }

  lemma TailOfTail(members: seq<Client>, i: nat)
    requires i < |members|
    ensures members[i..] != [] && members[i..][0] == members[i] && members[i..][1..] == members[i + 1..]
  {
  }

  class SubscriptionManager {
    var clients: map<string, ClientSet>
    var unsubscribes: map<Client, ClientSet>
    var closed: set<Client>
    var sent: seq<Delivery>
    ghost var sets: seq<ClientSet>
    ghost var index: map<string, nat>
    ghost var captured: map<Client, nat>

    /** Every set object made so far has its number. */
    ghost predicate Valid()
      reads this
    {
      && (forall i, j :: 0 <= i < j < |sets| ==> sets[i] != sets[j])
      && index.Keys == clients.Keys && captured.Keys == unsubscribes.Keys
      && (forall t :: t in clients ==> index[t] < |sets| && clients[t] == sets[index[t]])
      && (forall c :: c in unsubscribes ==> captured[c] < |sets| && unsubscribes[c] == sets[captured[c]])
    }

    ghost function Members(): (r: seq<seq<Client>>)
      reads this, sets
      ensures |r| == |sets| && forall i :: 0 <= i < |sets| ==> r[i] == sets[i].members
    {
      seq(|sets|, i requires 0 <= i < |sets| reads this, sets => sets[i].members)
    }

    ghost function Now(): (r: State)
      requires Valid()
      reads this, sets
      ensures InRange(r)
    {
      State(Members(), index, captured, closed, sent)
    }

    constructor ()
      ensures Valid() && sets == [] && Now() == Initial()
    {
      clients, unsubscribes, closed, sent := map[], map[], {}, [];
      sets, index, captured := [], map[], map[];
    }

    /** The tenant's set, made and registered if there is none. */
    method TenantSet(tenant: string) returns (tenantClients: ClientSet)
      requires Valid()
      modifies this
      ensures Valid() && tenant in clients && clients[tenant] == tenantClients
      ensures old(sets) <= sets && forall i :: |old(sets)| <= i < |sets| ==> fresh(sets[i])
      ensures Now() == old(Opened(Now(), tenant))
    {
      if tenant in clients {
        return clients[tenant];
      }
      tenantClients := new ClientSet();
      clients := clients[tenant := tenantClients];
      index := index[tenant := |sets|];
      sets := sets + [tenantClients];
      assert Members() == old(Members()) + [[]];
    }

    ghost function Opened(s: State, tenant: string): State {
      if tenant in s.clients then s else s.(sets := s.sets + [[]], clients := s.clients[tenant := |s.sets|])
    }

    ghost function Joined(s: State, client: Client, k: nat): State
      requires k < |s.sets|
    {
      s.(sets := s.sets[k := Add(s.sets[k], client)], captured := s.captured[client := k])
    }

    /** Adds the client to the set, and makes the function that will take it out. */
    method Join(tenantClients: ClientSet, client: Client, ghost k: nat)
      requires Valid() && k < |sets| && sets[k] == tenantClients
      modifies tenantClients, `unsubscribes, `captured
      ensures Valid() && Now() == old(Joined(Now(), client, k))
    {
      if client !in tenantClients.members {
        tenantClients.members := tenantClients.members + [client];
      }
      unsubscribes := unsubscribes[client := tenantClients];
      captured := captured[client := k];
      assert Members() == old(Joined(Now(), client, k)).sets;
    }

    lemma JoinedIsSubscribed(s: State, client: Client)
      requires InRange(s)
      ensures var after := Opened(s, client.tenant);
              Joined(after, client, after.clients[client.tenant]) == Subscribe(s, client)
    {
    }

    method SubscribeClient(client: Client)
      requires Valid()
      modifies this, sets
      ensures Valid() && old(sets) <= sets && forall i :: |old(sets)| <= i < |sets| ==> fresh(sets[i])
      ensures Now() == Subscribe(old(Now()), client)
    {
      var tenantClients := TenantSet(client.tenant);
      Join(tenantClients, client, index[client.tenant]);
      JoinedIsSubscribed(old(Now()), client);
    }

    /** Calls the function returned when the client was subscribed. */
    method UnsubscribeClient(client: Client)
      requires Valid() && client in unsubscribes
      modifies this, unsubscribes[client]
      ensures Valid() && sets == old(sets)
      ensures Now() == Unsubscribe(old(Now()), client)
    {
      var tenantClients := unsubscribes[client];
      Delete(tenantClients, client, captured[client]);
      if |tenantClients.members| == 0 {
        DropTenant(client.tenant);
      }
    }

    method DropTenant(tenant: string)
      requires Valid()
      modifies `clients, `index
      ensures Valid() && Now() == old(Now()).(clients := old(Now()).clients - {tenant})
    {
      clients := clients - {tenant};
      index := index - {tenant};
    }

    /** The set object without the client. */
    method Delete(tenantClients: ClientSet, client: Client, ghost k: nat)
      requires Valid() && k < |sets| && sets[k] == tenantClients
      modifies tenantClients
      ensures Valid() && tenantClients.members == Filter(old(tenantClients.members), Other(client))
      ensures Now() == old(Now()).(sets := old(Now()).sets[k := tenantClients.members])
    {
      tenantClients.members := Filter(tenantClients.members, Other(client));
      assert Members() == old(Members())[k := tenantClients.members];
    }

    /** doCleanup of a stream */
    method CloseStream(client: Client)
      requires Valid()
      modifies this, sets
      ensures Valid() && sets == old(sets)
      ensures Now() == Cleanup(old(Now()), client)
    {
      if client in closed {
        return;
      }
      closed := closed + {client};
      assert Now() == old(Now()).(closed := closed);
      if client in unsubscribes {
        UnsubscribeClient(client);
      }
    }

    /** send of a client: the write of its stream, which cleans up when the stream does not take it. */
    method SendTo(client: Client, event: Event, broken: set<Client>)
      requires Valid()
      modifies this, sets
      ensures Valid() && sets == old(sets)
      ensures Now() == Send(old(Now()), client, event, broken)
    {
      if client in closed {
        return;
      }
      if client in broken {
        CloseStream(client);
      } else {
        sent := sent + [Delivery(client, event)];
      }
    }

    /**
     publish. A cleanup inside the loop takes out the client that is being served and no other, so
     the iteration meets the members that the set had at its start.
     */
    method PublishEvent(tenant: string, event: Event, broken: set<Client>)
      requires Valid()
      modifies this, sets
      ensures Valid() && sets == old(sets)
      ensures Now() == Publish(old(Now()), tenant, event, broken)
    {
      if tenant !in clients || |clients[tenant].members| == 0 {
        return;
      }
      var members := clients[tenant].members;
      var i := 0;
      while i < |members|
        invariant i <= |members| && Valid() && sets == old(sets)
        invariant SendAll(Now(), members[i..], event, broken) == SendAll(old(Now()), members, event, broken)
      {
        TailOfTail(members, i);
        if ShouldReceive(members[i], event) {
          SendTo(members[i], event, broken);
        }
        i := i + 1;
      }
    }

    /** clientCount */
    method ClientCount(tenant: string, ghost registered: seq<Client>) returns (count: nat)
      requires Valid() && Grouped(Now(), registered)
      ensures count == Count(registered, OfTenant(tenant))
    {
      if tenant in clients {
        count := |clients[tenant].members|;
      } else {
        FilterNone(registered, OfTenant(tenant));
        count := 0;
      }
    }
  }
}
