/**
 * The allocation table of src/allocation.rs as the object it is: a map updated in place next to the port bitmap, the
 * counters and the bandwidth trackers. Socket binds and random numbers come from outside.
 */
module AllocationTable {
  import opened Bytes
  import opened Codec
  import opened Channels
  import opened Turn
  import opened TurnRuns
  import PA = PortAllocator

  datatype Created = QuotaFull | Tried(outcome: Outcome)

  class AllocationTable {
    const cfg: Config
    const ports: PA.PortAllocator
    var allocations: map<SocketAddr, Allocation>
    var active: int
    var total: nat
    var trackers: set<SocketAddr>

    ghost function View(): Tables
      reads this, ports, ports.words
    {
      Tables(allocations, ports.Taken(), active, total, trackers)
    }

    /** The allocator covers the configured range, and the tables describe the same allocations. */
    ghost predicate Valid()
      reads this, ports, ports.words
    {
      && ports.Valid() && ports.minPort == cfg.minPort && ports.maxPort == cfg.maxPort
      && InStep(cfg, View())
    }

    constructor (c: Config)
      requires c.minPort <= c.maxPort && c.maxPort - c.minPort + 1 < 0x1_0000
      ensures Valid() && fresh(ports) && fresh(ports.words) && cfg == c
      ensures View() == Tables(map[], {}, 0, 0, {})
    {
      cfg := c;
      ports := new PA.PortAllocator(c.minPort, c.maxPort);
      allocations, active, total, trackers := map[], 0, 0, {};
    }

    /** Walks the map in whatever order it comes; every lookup by client is this loop. */
    method FindByClient(client: SocketAddr) returns (r: Option<SocketAddr>)
      requires Valid()
      ensures Finds(allocations, client, r)
      ensures Distinct(allocations, total) ==> r == Find(allocations, client)
    {
      var todo := allocations.Keys;
      while todo != {}
        invariant todo <= allocations.Keys
        invariant forall a :: a in allocations && a !in todo ==> allocations[a].client != client
        decreases todo
      {
        var a :| a in todo;
        if allocations[a].client == client {
          if Distinct(allocations, total) { OnlyOne(allocations, total, client, a); }
          return Some(a);
        }
        todo := todo - {a};
      }
      r := None;
    }

    /** The insertion half of `create_allocation`: table, counters and tracker for a port already taken. */
    method Insert(client: SocketAddr, seconds: u32, now: Time, port: u16, ghost before: Tables)
      requires View() == before.(bits := before.bits + {port})
      modifies this
      ensures View() == Inserted(cfg, before, client, seconds, now, port)
    {
      ghost var goal := Inserted(cfg, before, client, seconds, now, port);
      assert ports.Taken() == goal.bits;
      var r := RelayedAddr(cfg, port);
      var a := Allocation(client, now, CappedLifetime(cfg, seconds), {}, total + 1);
      assert goal.allocations == before.allocations[r := a];
      allocations := allocations[r := a];
      total := total + 1;
      active := active + 1;
      trackers := trackers + {r};
      assert trackers == goal.trackers;
    }

    /**
     * `create_allocation`: quota, then up to a hundred ports until a socket binds, then the insertion. A creation that
     * fails leaves every table, the port bitmap included, as it was. It gives up on binding after a hundred failures.
     */
    method CreateAllocation(client: SocketAddr, seconds: u32, now: Time) returns (r: Created, failed: nat)
      requires Valid()
      modifies this, ports, ports.words
      ensures Valid()
      ensures r.QuotaFull? <==> cfg.maxAllocations.Some? && |old(allocations)| >= cfg.maxAllocations.value
      ensures r == Tried(BindFailed) <==> failed == 100
      ensures r == QuotaFull ==> failed == 0
      ensures if r.Tried? && r.outcome.Opened?
              then && cfg.minPort <= r.outcome.port <= cfg.maxPort && r.outcome.port !in old(View()).bits
                   && View() == Inserted(cfg, old(View()), client, seconds, now, r.outcome.port)
              else View() == old(View())
      ensures r == Tried(PortsExhausted) ==>
              forall p: u16 :: InRange(cfg, RelayedAddr(cfg, p)) ==> p in old(View()).bits
    {
      failed := 0;
      if cfg.maxAllocations.Some? && active >= cfg.maxAllocations.value {
        return QuotaFull, failed;
      }
      while failed < 100
        invariant Valid() && View() == old(View()) && failed <= 100
      {
        var random0: nat, random1: nat, spurious: nat := *, *, *;
        var port := ports.Allocate(random0, random1, spurious);
        if port.None? {
          forall p: u16 | InRange(cfg, RelayedAddr(cfg, p)) ensures p in ports.Taken() {
            assert PA.InRange(ports.minPort, ports.portCount, p);
          }
          return Tried(PortsExhausted), failed;
        }
        var bound: bool := *;
        if bound {
          Insert(client, seconds, now, port.value, old(View()));
          InsertionKeepsInStep(cfg, old(View()), client, seconds, now, port.value);
          return Tried(Opened(port.value)), failed;
        }
        var released := ports.Release(port.value);
        assert View() == old(View());
        failed := failed + 1;
      }
      r := Tried(BindFailed);
    }

    /** `remove_allocation` with the channel table: nothing happens for an address that is not in the table. */
    method RemoveAllocation(r: SocketAddr, channels: ChannelTable)
      requires Valid() && channels as object != this && channels as object != ports
      modifies this, ports, ports.words, channels
      ensures Valid() && View() == Removed(old(View()), r)
      ensures channels.channels ==
              if r in old(allocations) then WithoutRelayed(old(channels.channels), r) else old(channels.channels)
    {
      if r !in allocations {
        return;
      }
      RemovalKeepsInStep(cfg, View(), r);
      assert InRange(cfg, r) && RelayedAddr(cfg, r.port) == r;
      allocations := allocations - {r};
      var released := ports.Release(r.port);
      active := active - 1;
      trackers := trackers - {r};
      channels.RemoveForRelayed(r);
    }

    /** `refresh_allocation`; false is the NotFound error. */
    method RefreshAllocation(r: SocketAddr, seconds: u32) returns (ok: bool)
      requires Valid()
      modifies this
      ensures Valid() && ok == (r in old(allocations))
      ensures View() == if ok then Refreshed(old(View()), r, seconds) else old(View())
    {
      if r !in allocations {
        return false;
      }
      UpdateKeepsInStep(cfg, View(), r, allocations[r].(lifetime := seconds * SECOND));
      allocations := allocations[r := allocations[r].(lifetime := seconds * SECOND)];
      ok := true;
    }

    /** `add_permissions`: the ports of the peers do not matter. */
    method AddPermissions(client: SocketAddr, peers: seq<SocketAddr>) returns (r: Option<SocketAddr>)
      requires Valid()
      modifies this
      ensures Valid() && Finds(old(allocations), client, r)
      ensures old(Distinct(allocations, total)) ==> r == Find(old(allocations), client)
      ensures View() == if r.Some? then Permitted(old(View()), r.value, IpsOf(peers)) else old(View())
    {
      r := FindByClient(client);
      if r.Some? {
        var a := allocations[r.value];
        var permissions := a.permissions;
        for i := 0 to |peers|
          invariant permissions == a.permissions + IpsOf(peers[..i])
        {
          assert IpsOf(peers[..i + 1]) == IpsOf(peers[..i]) + {peers[i].ip};
          permissions := permissions + {peers[i].ip};
        }
        assert peers[..|peers|] == peers;
        UpdateKeepsInStep(cfg, View(), r.value, a.(permissions := permissions));
        allocations := allocations[r.value := a.(permissions := permissions)];
      }
    }

    /** `send_to_peer`, up to the socket: the allocation that may send to the peer, if the client has one. */
    method MaySendTo(client: SocketAddr, peer: SocketAddr) returns (r: Option<SocketAddr>)
      requires Valid()
      ensures exists found :: Finds(allocations, client, found) && r == PermittedOf(allocations, found, peer)
      ensures Distinct(allocations, total) ==> r == PermittedOf(allocations, Find(allocations, client), peer)
    {
      r := FindByClient(client);
      ghost var found := r;
      if r.Some? && peer.ip !in allocations[r.value].permissions {
        r := None;
      }
      assert Finds(allocations, client, found) && r == PermittedOf(allocations, found, peer);
    }

    /** One turn of the removal loop of `cleanup_expired`. */
    method RemoveExpired(r: SocketAddr, channels: ChannelTable, ghost before: Tables, ghost done: set<SocketAddr>)
      requires ports.Valid() && channels as object != this && channels as object != ports
      requires View() == RemovedAll(before, done)
      modifies this, ports, ports.words, channels
      ensures ports.Valid() && View() == RemovedAll(before, done + {r})
      ensures channels.channels == WithoutRelayed(old(channels.channels), r)
    {
      RemoveOneMore(before, done, r);
      allocations := allocations - {r};
      var released := ports.Release(r.port);
      trackers := trackers - {r};
      channels.RemoveForRelayed(r);
    }

    /** `cleanup_expired`: collect the expired addresses, then remove one after the other. */
    method CleanupExpired(now: Time, channels: ChannelTable) returns (count: nat)
      requires Valid() && channels as object != this && channels as object != ports
      modifies this, ports, ports.words, channels
      ensures Valid() && View() == Cleaned(old(View()), now)
      ensures channels.channels == WithoutAll(old(channels.channels), ExpiredAddrs(old(View()), now))
      ensures count == |ExpiredAddrs(old(View()), now)|
    {
      ghost var before := View();
      var expired := set r | r in allocations && now > allocations[r].createdAt + allocations[r].lifetime;
      assert expired == ExpiredAddrs(before, now);
      count := RemoveAllExpired(expired, channels);
      active := active - count;
      assert View() == Cleaned(before, now);
      CleaningKeepsInStep(cfg, before, now);
    }

    /** The removal loop itself. */
    method RemoveAllExpired(expired: set<SocketAddr>, channels: ChannelTable) returns (count: nat)
      requires ports.Valid() && channels as object != this && channels as object != ports
      modifies this, ports, ports.words, channels
      ensures ports.Valid() && View() == RemovedAll(old(View()), expired) && count == |expired|
      ensures channels.channels == WithoutAll(old(channels.channels), expired)
    {
      ghost var before, bound := View(), channels.channels;
      NothingRemoved(before, bound);
      var todo := expired;
      count := 0;
      ghost var done := {};
      while todo != {}
        invariant done !! todo && done + todo == expired && count == |done|
        invariant View() == RemovedAll(before, done) && ports.Valid()
        invariant channels.channels == WithoutAll(bound, done)
        decreases todo
      {
        var r :| r in todo;
        RemoveExpired(r, channels, before, done);
        WithoutOneMore(bound, done, r);
        count := count + 1;
        done, todo := done + {r}, todo - {r};
      }
      assert done == expired;
    }
  }

  /** The allocation found, if it permits the peer's address. */
  function PermittedOf(allocations: map<SocketAddr, Allocation>, found: Option<SocketAddr>, peer: SocketAddr)
    : Option<SocketAddr>
    requires found.Some? ==> found.value in allocations
  {
    if found.Some? && peer.ip in allocations[found.value].permissions then found else None
  }

  lemma NothingRemoved(t: Tables, channels: Table)
    ensures RemovedAll(t, {}) == t && WithoutAll(channels, {}) == channels
  {
    assert t.allocations - {} == t.allocations;
    var none: set<SocketAddr> := {};
    assert (set r | r in none :: r.port) == {};
  }

  lemma RemoveOneMore(t: Tables, done: set<SocketAddr>, r: SocketAddr)
    ensures var some, more := RemovedAll(t, done), RemovedAll(t, done + {r});
            && more.allocations == some.allocations - {r}
            && more.bits == some.bits - {r.port}
            && more.trackers == some.trackers - {r}
  {
    assert (set q | q in done + {r} :: q.port) == (set q | q in done :: q.port) + {r.port};
  }

  lemma WithoutOneMore(channels: Table, done: set<SocketAddr>, r: SocketAddr)
    ensures WithoutRelayed(WithoutAll(channels, done), r) == WithoutAll(channels, done + {r})
  {
  }

  /** With one allocation per client, every order of the map finds the same one. */
  lemma OnlyOne(allocations: map<SocketAddr, Allocation>, total: nat, client: SocketAddr, a: SocketAddr)
    requires Distinct(allocations, total) && a in allocations && allocations[a].client == client
    ensures Find(allocations, client) == Some(a)
  {
  }
}
