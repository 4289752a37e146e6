/** The channel binding table of src/allocation.rs. Times are in nanoseconds. */
module Channels {
  import opened Bytes
  import opened Codec

  type Time = nat
  const SECOND: nat := 1_000_000_000
  const CHANNEL_LIFETIME: nat := 600 * SECOND

  /** `created_at.elapsed() > lifetime`, where elapsed time never goes below zero. */
  predicate Expired(createdAt: Time, lifetime: nat, now: Time) {
    now > createdAt + lifetime
  }

  datatype ChannelBinding = ChannelBinding(peer: SocketAddr, createdAt: Time)
  /** Keyed by relayed address and channel number. */
  type Table = map<(SocketAddr, u16), ChannelBinding>

  /** `bind`: a bound number may only be refreshed for its own peer; None is the AlreadyExists error. */
  function Bound(t: Table, channel: u16, peer: SocketAddr, relayed: SocketAddr, now: Time): Option<Table> {
    var key := (relayed, channel);
    if key in t && t[key].peer != peer then None else Some(t[key := ChannelBinding(peer, now)])
  }

  function WithoutRelayed(t: Table, relayed: SocketAddr): Table {
    map k | k in t && k.0 != relayed :: t[k]
  }

  function WithoutExpired(t: Table, now: Time): Table {
    map k | k in t && !Expired(t[k].createdAt, CHANNEL_LIFETIME, now) :: t[k]
  }

  class ChannelTable {
    var channels: Table

    constructor ()
      ensures channels == map[]
    {
      channels := map[];
    }

    method Bind(channel: u16, peer: SocketAddr, relayed: SocketAddr, now: Time) returns (ok: bool)
      modifies this
      ensures ok == old(Bound(channels, channel, peer, relayed, now)).Some?
      ensures channels == if ok then old(Bound(channels, channel, peer, relayed, now)).value else old(channels)
    {
      var key := (relayed, channel);
      if key in channels {
        if channels[key].peer == peer {
          channels := channels[key := channels[key].(createdAt := now)];
          return true;
        }
        return false;
      }
      channels := channels[key := ChannelBinding(peer, now)];
      ok := true;
    }

    /** Walks the map in whatever order it comes and stops at the first binding to the peer. */
    method GetByPeerForRelayed(relayed: SocketAddr, peer: SocketAddr) returns (r: Option<u16>)
      ensures r.Some? ==> (relayed, r.value) in channels && channels[(relayed, r.value)].peer == peer
      ensures r.None? ==> forall c: u16 :: (relayed, c) in channels ==> channels[(relayed, c)].peer != peer
    {
      var todo := channels.Keys;
      while todo != {}
        invariant todo <= channels.Keys
        invariant forall k :: k in channels.Keys - todo && k.0 == relayed ==> channels[k].peer != peer
        decreases todo
      {
        var k :| k in todo;
        if k.0 == relayed && channels[k].peer == peer {
          return Some(k.1);
        }
        todo := todo - {k};
      }
      r := None;
    }

    method RemoveForRelayed(relayed: SocketAddr)
      modifies this
      ensures channels == WithoutRelayed(old(channels), relayed)
    {
      channels := map k | k in channels && k.0 != relayed :: channels[k];
    }

    method CleanupExpired(now: Time)
      modifies this
      ensures channels == WithoutExpired(old(channels), now)
    {
      channels := map k | k in channels && !(now > channels[k].createdAt + CHANNEL_LIFETIME) :: channels[k];
    }
  }
}
