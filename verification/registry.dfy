/**
 The connection registry of the echo server (`ConnectionManager` in
 audio_socket_api/main.py): an ordered list of live connection handles,
 appended to after the handshake and removed from with Python's
 `list.remove`, plus the count the health endpoint reports.
 */
module Registry {
  import opened Wrappers

  /** A connection handle. Only its identity matters, so a number stands for it. */
  type Handle = nat

  /** `list.remove` raises `ValueError` when the handle is not in the list. */
  datatype RegistryError = NotRegistered(h: Handle)

  /** `ConnectionManager`: the list `active_connections`, in arrival order. */
  datatype Manager = Manager(active: seq<Handle>)

  /** The body of the health endpoint's JSON answer. */
  datatype HealthReport = HealthReport(status: string, connections: nat)

  /** The handles held in `s`, as a set. */
  function Elements(s: seq<Handle>): set<Handle>
  {
    set x | x in s
  }

  /** No handle occurs twice. */
  predicate NoDup(s: seq<Handle>)
  {
    forall i, j :: 0 <= i < j < |s| ==> s[i] != s[j]
  }

  /** The other handles of `s`, in their order: `s` with every `h` filtered out. */
  function Without(s: seq<Handle>, h: Handle): seq<Handle>
  {
    if s == [] then []
    else if s[0] == h then Without(s[1..], h)
    else [s[0]] + Without(s[1..], h)
  }

  /** The position of the first `h` in `s`. */
  function FirstIndex(s: seq<Handle>, h: Handle): (i: nat)
    requires h in s
    ensures i < |s| && s[i] == h
    ensures h !in s[..i]
  {
    if s[0] == h then 0 else 1 + FirstIndex(s[1..], h)
  }

  /**
   Python's `list.remove` on a list known to hold `h`: exactly one
   occurrence, the first one, goes, and everything else keeps its order.
   */
  function RemoveFirst(s: seq<Handle>, h: Handle): (r: seq<Handle>)
    requires h in s
    ensures |r| == |s| - 1
    ensures r == s[..FirstIndex(s, h)] + s[FirstIndex(s, h) + 1..]
  {
    if s[0] == h then s[1..]
    else
      var t := s[1..];
      var i := FirstIndex(t, h);
      assert [s[0]] + t[..i] == s[..i + 1];
      assert t[i + 1..] == s[i + 2..];
      [s[0]] + RemoveFirst(t, h)
  }

  /** Filtering distributes over concatenation. */
  lemma {:induction false} WithoutConcat(x: seq<Handle>, y: seq<Handle>, h: Handle)
    ensures Without(x + y, h) == Without(x, h) + Without(y, h)
  {
    if x == [] {
      assert x + y == y;
    } else {
      assert (x + y)[1..] == x[1..] + y;
      WithoutConcat(x[1..], y, h);
    }
  }

  /** Removing the first `h` takes exactly one `h` away. */
  lemma RemoveFirstTakesOne(s: seq<Handle>, h: Handle)
    requires h in s
    ensures multiset(RemoveFirst(s, h)) == multiset(s) - multiset{h}
  {
    var i := FirstIndex(s, h);
    var a, b := s[..i], s[i + 1..];
    assert s == a + [h] + b;
    assert multiset(s) == multiset(a) + multiset{h} + multiset(b);
  }

  /** Removing the first `h` leaves the other handles as they were, in order. */
  lemma RemoveFirstKeepsOthers(s: seq<Handle>, h: Handle)
    requires h in s
    ensures Without(RemoveFirst(s, h), h) == Without(s, h)
  {
    var i := FirstIndex(s, h);
    var a, b := s[..i], s[i + 1..];
    assert s == a + ([h] + b);
    calc {
      Without(s, h);
      { WithoutConcat(a, [h] + b, h); }
      Without(a, h) + Without([h] + b, h);
      { assert ([h] + b)[1..] == b; }
      Without(a, h) + Without(b, h);
      { WithoutConcat(a, b, h); }
      Without(a + b, h);
    }
  }

  /** `ConnectionManager.__init__`: no connections yet. */
  function Init(): (m: Manager)
    ensures |m.active| == 0
    ensures Health(m).connections == 0
  {
    Manager([])
  }

  /** `ConnectionManager.connect`, after `accept` succeeded: the handle goes at the end. */
  function Connect(m: Manager, h: Handle): (r: Manager)
    ensures |r.active| == |m.active| + 1
    ensures r.active[..|m.active|] == m.active
    ensures r.active[|m.active|] == h
    ensures multiset(r.active) == multiset(m.active) + multiset{h}
  {
    Manager(m.active + [h])
  }

  /**
   `ConnectionManager.disconnect`: fails, as `list.remove` raises, when the
   handle is absent; otherwise one occurrence goes and the rest stays in order.
   */
  function Disconnect(m: Manager, h: Handle): (r: Result<Manager, RegistryError>)
    ensures r.Failure? <==> h !in m.active
    ensures r.Failure? ==> r.error == NotRegistered(h)
    ensures r.Success? ==> |r.value.active| == |m.active| - 1
    ensures r.Success? ==> multiset(r.value.active) == multiset(m.active) - multiset{h}
    ensures r.Success? ==> Without(r.value.active, h) == Without(m.active, h)
    ensures r.Success? ==> r.value.active == m.active[..FirstIndex(m.active, h)] + m.active[FirstIndex(m.active, h) + 1..]
  {
    if h in m.active then
      RemoveFirstTakesOne(m.active, h);
      RemoveFirstKeepsOthers(m.active, h);
      Success(Manager(RemoveFirst(m.active, h)))
    else Failure(NotRegistered(h))
  }

  /** `health_check`: always healthy, with the length of the live list. */
  function Health(m: Manager): (r: HealthReport)
    ensures r.status == "healthy"
    ensures r.connections == |m.active|
  {
    HealthReport("healthy", |m.active|)
  }

  /** Removing the first `h` of `s + [h]`, where `s` has no `h`, gives back `s`. */
  lemma {:induction false} RemoveFirstOfAppended(s: seq<Handle>, h: Handle)
    requires h !in s
    ensures RemoveFirst(s + [h], h) == s
  {
    if s != [] {
      assert (s + [h])[1..] == s[1..] + [h];
      RemoveFirstOfAppended(s[1..], h);
    }
  }

  /** A connection that arrives and leaves while no equal handle is live leaves the registry as it found it. */
  lemma ConnectThenDisconnect(m: Manager, h: Handle)
    requires h !in m.active
    ensures Disconnect(Connect(m, h), h) == Success(m)
  {
    RemoveFirstOfAppended(m.active, h);
  }

  /**
   When an equal handle is already live, `list.remove` takes the earlier
   one, so connecting and disconnecting does not restore the order.
   */
  lemma ConnectThenDisconnectReorders()
    ensures Disconnect(Connect(Manager([1, 2]), 1), 1) == Success(Manager([2, 1]))
  {
    assert Connect(Manager([1, 2]), 1).active == [1, 2, 1];
  }

  /** Removing the first `h` does not touch what was appended after the list. */
  lemma {:induction false} RemoveFirstSnoc(s: seq<Handle>, h: Handle, x: Handle)
    requires h in s
    ensures RemoveFirst(s + [x], h) == RemoveFirst(s, h) + [x]
  {
    var t := s + [x];
    assert t[0] == s[0];
    assert t[1..] == s[1..] + [x];
    if s[0] != h {
      RemoveFirstSnoc(s[1..], h, x);
      calc {
        RemoveFirst(t, h);
        [s[0]] + RemoveFirst(s[1..] + [x], h);
        [s[0]] + (RemoveFirst(s[1..], h) + [x]);
        ([s[0]] + RemoveFirst(s[1..], h)) + [x];
        RemoveFirst(s, h) + [x];
      }
    }
  }


  /**
   When an equal handle is already live, connecting and disconnecting removes
   that earlier handle and leaves the new one at the end.
   */
  lemma ConnectThenDisconnectRemovesEarlier(m: Manager, h: Handle)
    requires h in m.active
    ensures Disconnect(Connect(m, h), h) == Success(Manager(RemoveFirst(m.active, h) + [h]))
  {
    RemoveFirstSnoc(m.active, h, h);
  }

  /** Removal is not idempotent: a second `disconnect` of a handle held once raises. */
  lemma DisconnectTwiceFails(m: Manager, h: Handle)
    requires multiset(m.active)[h] == 1
    ensures Disconnect(m, h).Success?
    ensures Disconnect(Disconnect(m, h).value, h) == Failure(NotRegistered(h))
  {
    var r := Disconnect(m, h).value;
    assert multiset(r.active)[h] == 0;
  }

  /** Connecting a handle that is not live keeps the registry free of duplicates. */
  lemma ConnectKeepsNoDup(m: Manager, h: Handle)
    requires NoDup(m.active) && h !in m.active
    ensures NoDup(Connect(m, h).active)
  {
  }

  /** In a registry without duplicates, `disconnect` removes the handle altogether and keeps it duplicate-free. */
  lemma DisconnectKeepsNoDup(m: Manager, h: Handle)
    requires NoDup(m.active) && h in m.active
    ensures NoDup(Disconnect(m, h).value.active)
    ensures Elements(Disconnect(m, h).value.active) == Elements(m.active) - {h}
  {
    RemoveFirstNoDup(m.active, h);
  }

  /** `RemoveFirst` on a duplicate-free list removes exactly the handle, as a set. */
  lemma {:induction false} RemoveFirstNoDup(s: seq<Handle>, h: Handle)
    requires NoDup(s) && h in s
    ensures NoDup(RemoveFirst(s, h))
    ensures Elements(RemoveFirst(s, h)) == Elements(s) - {h}
  {
    NoDupTail(s);
    ElementsOfCons(s);
    if s[0] != h {
      var rest := RemoveFirst(s[1..], h);
      RemoveFirstNoDup(s[1..], h);
      assert s[0] !in Elements(rest);
      NoDupCons(s[0], rest);
      ElementsOfCons([s[0]] + rest);
      assert ([s[0]] + rest)[1..] == rest;
    }
  }

  /** Putting a new handle in front of a duplicate-free list keeps it duplicate-free. */
  lemma NoDupCons(x: Handle, t: seq<Handle>)
    requires NoDup(t) && x !in t
    ensures NoDup([x] + t)
  {
    var s := [x] + t;
    forall i, j | 0 <= i < j < |s| ensures s[i] != s[j] {
      assert s[j] == t[j - 1];
      if i > 0 {
        assert s[i] == t[i - 1];
      }
    }
  }

  /** Dropping the head of a duplicate-free list leaves one, without the head in it. */
  lemma NoDupTail(s: seq<Handle>)
    requires NoDup(s) && s != []
    ensures NoDup(s[1..]) && s[0] !in s[1..]
  {
    var rest := s[1..];
    forall i, j | 0 <= i < j < |rest| ensures rest[i] != rest[j] {
      assert rest[i] == s[i + 1] && rest[j] == s[j + 1];
    }
    forall k | 0 <= k < |rest| ensures rest[k] != s[0] {
      assert rest[k] == s[k + 1];
    }
  }

  /** The elements of a non-empty list are its head's and its tail's. */
  lemma ElementsOfCons(s: seq<Handle>)
    requires s != []
    ensures Elements(s) == Elements(s[1..]) + {s[0]}
  {
    forall x ensures x in Elements(s) <==> x in Elements(s[1..]) || x == s[0] {
      if x in Elements(s) && x != s[0] {
        var k :| 0 <= k < |s| && s[k] == x;
        assert s[1..][k - 1] == x;
      }
      if x in Elements(s[1..]) {
        var k :| 0 <= k < |s[1..]| && s[1..][k] == x;
        assert s[k + 1] == x;
      }
    }
  }

  /** Without duplicates, the list length is the number of distinct live handles. */
  lemma {:induction false} NoDupCardinality(s: seq<Handle>)
    requires NoDup(s)
    ensures |Elements(s)| == |s|
  {
    if s != [] {
      NoDupTail(s);
      NoDupCardinality(s[1..]);
      ElementsOfCons(s);
    }
  }
}
