/** Which cache pods serve a path: the ring of members and the clients kept beside it. */
module Ring {
  import opened Types

  type Endpoint = string

  /** A pod event for an endpoint: added or modified with its phase, or deleted. */
  datatype PodEvent = Changed(endpoint: Endpoint, running: bool) | Deleted(endpoint: Endpoint)

  datatype Serving = Serving(members: seq<Endpoint>, clients: set<Endpoint>)

  function RemoveFirst(members: seq<Endpoint>, e: Endpoint): seq<Endpoint> {
    if members == [] then []
    else if members[0] == e then members[1..]
    else [members[0]] + RemoveFirst(members[1..], e)
  }

  function Handle(s: Serving, event: PodEvent): Serving {
    match event
    case Changed(e, true) => if e in s.clients then s else Serving(s.members + [e], s.clients + {e})
    case Changed(e, false) => if e in s.clients then Serving(RemoveFirst(s.members, e), s.clients - {e}) else s
    case Deleted(e) => if e in s.clients then Serving(RemoveFirst(s.members, e), s.clients - {e}) else s
  }

  function HandleAll(events: seq<PodEvent>): Serving {
    if events == [] then Serving([], {}) else Handle(HandleAll(events[..|events| - 1]), events[|events| - 1])
  }

  predicate Distinct(members: seq<Endpoint>) {
    forall i, j :: 0 <= i < j < |members| ==> members[i] != members[j]
  }

  /** The ring lists every endpoint with a client exactly once. */
  predicate Consistent(s: Serving) {
    Distinct(s.members) && (forall e :: e in s.members ==> e in s.clients) && forall e :: e in s.clients ==>
        e in s.members
  }

  lemma {:induction false} RemoveFirstRemoves(members: seq<Endpoint>, e: Endpoint)
    requires Distinct(members)
    ensures Distinct(RemoveFirst(members, e))
    ensures forall x :: x in RemoveFirst(members, e) <==> x in members && x != e
  {
    if members != [] {
      RemoveFirstRemoves(members[1..], e);
      assert members == [members[0]] + members[1..];
      var rest := RemoveFirst(members[1..], e);
      forall j | 0 <= j < |rest|
        ensures rest[j] != members[0]
      {
        assert rest[j] in rest;
        var k :| 0 <= k < |members| - 1 && members[1..][k] == rest[j];
      }
    }
  }

  lemma HandleKeeps(s: Serving, event: PodEvent)
    requires Consistent(s)
    ensures Consistent(Handle(s, event))
  {
    RemoveFirstRemoves(s.members, event.endpoint);
  }

  /** Over every sequence of pod events the ring has no duplicates and exactly the clients' endpoints. */
  lemma {:induction false} AlwaysConsistent(events: seq<PodEvent>)
    ensures Consistent(HandleAll(events))
  {
    hide Handle, Consistent;
    if events == [] {
      assert Consistent(Serving([], {})) by {
        NoMembers();
      }
    } else {
      AlwaysConsistent(events[..|events| - 1]);
      HandleKeeps(HandleAll(events[..|events| - 1]), events[|events| - 1]);
    }
  }

  lemma NoMembers()
    ensures Consistent(Serving([], {}))
  {
  }

  /** The latest event for an endpoint. */
  function LastWord(events: seq<PodEvent>, e: Endpoint): Option<PodEvent> {
    if events == [] then None
    else if events[|events| - 1].endpoint == e then Some(events[|events| - 1])
    else LastWord(events[..|events| - 1], e)
  }

  /** A pod is served exactly when its latest event says it is running. */
  lemma {:induction false} ServedIsRunning(events: seq<PodEvent>, e: Endpoint)
    ensures e in HandleAll(events).clients <==> LastWord(events, e) == Some(Changed(e, true))
  {
    if events != [] {
      ServedIsRunning(events[..|events| - 1], e);
    }
  }

  /** The position of the event with which the endpoint's present stay in the ring began, or -1. */
  function StayBegan(events: seq<PodEvent>, e: Endpoint): (n: int)
    ensures -1 <= n < |events|
  {
    if events == [] then -1 else
    var init, last := events[..|events| - 1], events[|events| - 1];
    if last == Changed(e, true) && LastWord(init, e) != Some(Changed(e, true)) then |init| else StayBegan(init, e)
  }

  predicate InOrderOfArrival(events: seq<PodEvent>, members: seq<Endpoint>) {
    forall i, j :: 0 <= i < j < |members| ==> StayBegan(events, members[i]) < StayBegan(events, members[j])
  }

  /** Over every sequence of pod events the members stand in the order in which their present stays began. */
  lemma {:induction false} FirstComeFirst(events: seq<PodEvent>)
    ensures InOrderOfArrival(events, HandleAll(events).members)
  {
    hide InOrderOfArrival;
    if events == [] {
      NobodyArrived(events);
    } else {
      var init, last := events[..|events| - 1], events[|events| - 1];
      FirstComeFirst(init);
      AlwaysConsistent(init);
      ServedIsRunning(init, last.endpoint);
      ArrivalStep(init, last, HandleAll(init));
      assert init + [last] == events;
    }
  }

  lemma NobodyArrived(events: seq<PodEvent>)
    ensures InOrderOfArrival(events, [])
  {
  }

  lemma ArrivalStep(events: seq<PodEvent>, event: PodEvent, s: Serving)
    requires Consistent(s) && InOrderOfArrival(events, s.members)
    requires event.endpoint in s.clients <==> LastWord(events, event.endpoint) == Some(Changed(event.endpoint, true))
    ensures InOrderOfArrival(events + [event], Handle(s, event).members)
  {
    hide LastWord, StayBegan, RemoveFirst;
    forall e
      ensures StayBegan(events + [event], e) ==
          if event == Changed(e, true) && e !in s.clients then |events| else StayBegan(events, e)
    {
      StayStep(events, event, e);
    }
    if event.endpoint in s.clients && !(event.Changed? && event.running) {
      StaysInOrder(events, s.members, event.endpoint);
    }
  }

  lemma StayStep(events: seq<PodEvent>, event: PodEvent, e: Endpoint)
    ensures StayBegan(events + [event], e) ==
        if event == Changed(e, true) && LastWord(events, e) != Some(Changed(e, true)) then |events|
        else StayBegan(events, e)
  {
    assert (events + [event])[..|events|] == events;
  }

  lemma {:induction false} StaysInOrder(events: seq<PodEvent>, members: seq<Endpoint>, e: Endpoint)
    requires InOrderOfArrival(events, members)
    ensures InOrderOfArrival(events, RemoveFirst(members, e))
  {
    hide StayBegan;
    var n := FirstAt(members, e);
  }

  lemma {:induction false} FirstAt(members: seq<Endpoint>, e: Endpoint) returns (n: nat)
    ensures n <= |members|
    ensures RemoveFirst(members, e) == if n == |members| then members else members[..n] + members[n + 1..]
  {
    if members == [] || members[0] == e {
      n := 0;
    } else {
      var rest := members[1..];
      var m := FirstAt(rest, e);
      n := m + 1;
      assert RemoveFirst(members, e) == [members[0]] + RemoveFirst(rest, e);
      hide RemoveFirst;
      assert members == [members[0]] + rest;
      assert members[..n] == [members[0]] + rest[..m];
      assert m < |rest| ==> members[n + 1..] == rest[m + 1..];
    }
  }

  /** The ring and the client map of the index, with the hash of a path given. */
  class Services {
    var members: seq<Endpoint>
    var clients: map<Endpoint, Endpoint>

    constructor ()
      ensures State() == Serving([], {}) && Valid()
    {
      members, clients := [], map[];
    }

    function State(): Serving
      reads this
    {
      Serving(members, clients.Keys)
    }

    /** A client is named by the endpoint it was made for. */
    predicate Valid()
      reads this
    {
      Consistent(State()) && forall e :: e in clients ==> clients[e] == e
    }

    method Remove(e: Endpoint)
      modifies this`members
      ensures members == RemoveFirst(old(members), e)
    {
      for i := 0 to |members|
        invariant members == old(members)
        invariant RemoveFirst(members, e) == members[..i] + RemoveFirst(members[i..], e)
      {
        if members[i] == e {
          members := members[..i] + members[i + 1..];
          return;
        }
        assert members[i..][1..] == members[i + 1..];
      }
    }

    /** The pod-event switch. */
    method HandleEvent(event: PodEvent)
      requires Valid()
      modifies this
      ensures Valid() && State() == Handle(old(State()), event)
    {
      HandleKeeps(State(), event);
      var endpoint := event.endpoint;
      if event.Changed? && event.running {
        if endpoint !in clients {
          members := members + [endpoint];
          clients := clients[endpoint := endpoint];
        }
      } else {
        if endpoint in clients {
          Remove(endpoint);
          clients := clients - {endpoint};
        }
      }
    }

    /** locateKey and getClients: nobody only when the ring is empty, two different pods when there are two. */
    method GetClients(hash: nat) returns (r: Option<seq<Endpoint>>)
      requires Valid()
      ensures r == None <==> members == []
      ensures r.Some? ==> |r.value| == if |members| >= 2 then 2 else 1
      ensures r.Some? ==> r.value[0] == members[hash % |members|]
      ensures r.Some? && |members| >= 2 ==> r.value[1] == members[(hash + 1) % |members|] && r.value[0] != r.value[1]
      ensures r.Some? ==> forall e :: e in r.value ==> e in clients
    {
      if |members| == 0 {
        return None;
      }
      var n := |members|;
      var primary := hash % n;
      var fallback := (primary + 1) % n;
      Neighbours(hash, n);
      var located := [members[primary]];
      if members[fallback] != members[primary] {
        located := located + [members[fallback]];
      }
      var result: seq<Endpoint> := [];
      for i := 0 to |located|
        invariant result == located[..i]
      {
        assert located[i] in members;
        if located[i] !in clients {
          return None;
        }
        result := result + [clients[located[i]]];
      }
      assert located[..|located|] == located;
      return Some(result);
    }

    static lemma Neighbours(hash: nat, n: nat)
      requires n > 0
      ensures 0 <= hash % n < n && (hash % n + 1) % n == (hash + 1) % n
      ensures n >= 2 ==> (hash % n + 1) % n != hash % n
    {
      var m, q := hash % n, hash / n;
      assert hash == n * q + m;
      if m + 1 < n {
        Mod(q, m + 1, n);
        Mod(0, m + 1, n);
        assert hash + 1 == q * n + (m + 1);
      } else {
        Mod(q + 1, 0, n);
        Mod(1, 0, n);
        assert hash + 1 == (q + 1) * n;
      }
    }

    static lemma Mod(q: nat, m: nat, n: nat)
      requires m < n
      ensures (q * n + m) % n == m
    {
      var r := (q * n + m) % n;
      var d := (q * n + m) / n;
      assert q * n + m == n * d + r;
      Monotone(d + 1, q, n);
      Monotone(q + 1, d, n);
    }

    static lemma Monotone(a: int, b: int, n: nat)
      ensures a <= b ==> n * a <= n * b
    {
    }
  }
}
