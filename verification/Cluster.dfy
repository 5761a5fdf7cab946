/** The servers a cluster knows (mgo.v2/cluster.go, mgo.v2/server.go): two lists sorted by resolved
    address, all servers and the masters among them. */
module Cluster {

  /** Resolved addresses, of which only the order matters. */
  type Addr = nat

  class MongoServer {
    const addr: Addr
    var master: bool       // what its info says

    constructor (addr: Addr)
      ensures this.addr == addr && !master
    {
      this.addr, master := addr, false;
    }
  }

  /** Sorted by address, and no address twice. */
  predicate Sorted(s: seq<MongoServer>) {
    forall i, j :: 0 <= i < j < |s| ==> s[i].addr < s[j].addr
  }

  ghost predicate Knows(s: seq<MongoServer>, addr: Addr) {
    exists x :: x in s && x.addr == addr
  }

  /** No other server of `s` has the address of one. */
  lemma OnlyOne(s: seq<MongoServer>, x: MongoServer, y: MongoServer)
    requires Sorted(s) && x in s && y in s && x.addr == y.addr
    ensures x == y
  {
  }

  /** Binary search for the first address that is not smaller. */
  method SearchSlice(s: seq<MongoServer>, addr: Addr) returns (i: nat, ok: bool)
    requires Sorted(s)
    ensures i <= |s| && (forall k :: 0 <= k < i ==> s[k].addr < addr) && (forall k :: i <= k < |s| ==> s[k].addr >= addr)
    ensures ok == (i < |s| && s[i].addr == addr) && ok == Knows(s, addr)
  {
    var lo, hi := 0, |s|;
    while lo < hi
      invariant lo <= hi <= |s|
      invariant forall k :: 0 <= k < lo ==> s[k].addr < addr
      invariant forall k :: hi <= k < |s| ==> s[k].addr >= addr
    {
      var h := (lo + hi) / 2;
      if s[h].addr < addr {
        lo := h + 1;
      } else {
        hi := h;
      }
    }
    i := lo;
    ok := i != |s| && s[i].addr == addr;
  }

  /** Moves the last server to where it belongs; the others are in order. */
  method SortLast(s: seq<MongoServer>) returns (r: seq<MongoServer>)
    requires s != [] && Sorted(s[..|s| - 1]) && !Knows(s[..|s| - 1], s[|s| - 1].addr)
    ensures Sorted(r) && |r| == |s| && forall x :: x in r <==> x in s
  {
    var n := |s| - 1;
    var last := s[n];
    r := s;
    var i := n;
    while i > 0 && r[i - 1].addr > last.addr
      invariant 0 <= i <= n && |r| == |s|
      invariant forall k :: 0 <= k < i ==> r[k] == s[k]
      invariant r[i] == last
      invariant forall k :: i < k <= n ==> r[k] == s[k - 1] && r[k].addr > last.addr
    {
      r := r[i := r[i - 1]][i - 1 := last];
      i := i - 1;
    }
    assert forall k :: 0 <= k < n ==> s[..n][k] == s[k];
    forall x ensures x in r <==> x in s {
      if x in s {
        var k :| 0 <= k < |s| && s[k] == x;
        assert x == if k == n then r[i] else if k < i then r[k] else r[k + 1];
      }
    }
    assert i > 0 ==> r[i - 1] == s[..n][i - 1] && r[i - 1].addr != last.addr;
  }

  /** The source's mongoServers. */
  class MongoServers {
    var slice: seq<MongoServer>

    ghost predicate Valid()
      reads this
    {
      Sorted(slice)
    }

    constructor ()
      ensures Valid() && slice == []
    {
      slice := [];
    }

    method Search(addr: Addr) returns (server: MongoServer?)
      requires Valid()
      ensures server == null <==> !Knows(slice, addr)
      ensures server != null ==> server in slice && server.addr == addr
    {
      var i, ok := SearchSlice(slice, addr);
      server := if ok then slice[i] else null;
    }

    method Add(server: MongoServer)
      requires Valid() && !Knows(slice, server.addr)
      modifies this
      ensures Valid() && forall x :: x in slice <==> x in old(slice) || x == server
    {
      slice := slice + [server];
      assert slice[..|slice| - 1] == old(slice);
      slice := SortLast(slice);
    }

    /** Takes the server with the address of `other` out. */
    method Remove(other: MongoServer) returns (server: MongoServer?)
      requires Valid()
      modifies this
      ensures Valid() && (server == null <==> !old(Knows(slice, other.addr)))
      ensures server != null ==> server in old(slice) && server.addr == other.addr
      ensures forall x :: x in slice <==> x in old(slice) && x.addr != other.addr
    {
      var i, found := SearchSlice(slice, other.addr);
      server := null;
      if found {
        server := slice[i];
        slice := slice[..i] + slice[i + 1..];
        RemovedAt(old(slice), i);
      }
    }
  }

  lemma RemovedAt(s: seq<MongoServer>, i: nat)
    requires Sorted(s) && i < |s|
    ensures Sorted(s[..i] + s[i + 1..])
    ensures forall x :: x in s[..i] + s[i + 1..] <==> x in s && x.addr != s[i].addr
  {
    var r := s[..i] + s[i + 1..];
    forall k | 0 <= k < |r| ensures r[k] == s[if k < i then k else k + 1] {}
    forall x | x in s && x.addr != s[i].addr ensures x in r {
      var k :| 0 <= k < |s| && s[k] == x;
      assert r[if k < i then k else k - 1] == x;
    }
  }

  datatype SyncKind = CompleteSync | PartialSync
  datatype Added = Accepted | Discarded | Duplicate

  class MongoCluster {
    const servers: MongoServers
    const masters: MongoServers

    /** The masters are exactly the servers whose info says so. */
    ghost predicate Valid()
      reads this, servers, masters, servers.slice, masters.slice
    {
      && servers != masters && servers.Valid() && masters.Valid()
      && (forall x :: x in masters.slice ==> x in servers.slice && x.master)
      && (forall x :: x in servers.slice && x.master ==> x in masters.slice)
    }

    constructor ()
      ensures Valid() && servers.slice == [] && fresh(servers) && fresh(masters)
    {
      servers := new MongoServers();
      masters := new MongoServers();
    }

    /** Puts a server into the cluster, or takes note of what it says now. */
    method AddServer(server: MongoServer, master: bool, kind: SyncKind) returns (r: Added)
      requires Valid()
      modifies servers, masters, server`master
      ensures r == Duplicate <==> old(Knows(servers.slice, server.addr)) && server !in old(servers.slice)
      ensures r == Discarded <==> !old(Knows(servers.slice, server.addr)) && kind == PartialSync
      ensures r != Accepted ==> servers.slice == old(servers.slice) && masters.slice == old(masters.slice)
      ensures r != Accepted ==> server.master == old(server.master)
      ensures r == Accepted ==>
        && server.master == master
        && forall x :: x in servers.slice <==> x in old(servers.slice) || x == server
      ensures Valid()
    {
      var current := servers.Search(server.addr);
      if current == null {
        if kind == PartialSync {
          return Discarded;
        }
        servers.Add(server);
        if master {
          masters.Add(server);
        }
      } else {
        if server != current {
          // addServer attempting to add duplicated server
          if server in servers.slice { OnlyOne(servers.slice, server, current); }
          return Duplicate;
        }
        if Knows(masters.slice, server.addr) {
          ghost var x :| x in masters.slice && x.addr == server.addr;
          OnlyOne(servers.slice, server, x);
        }
        if server.master != master {
          if master {
            masters.Add(server);
          } else {
            var other := masters.Remove(server);
          }
        }
      }
      server.master := master;
      return Accepted;
    }

    method RemoveServer(server: MongoServer)
      requires Valid()
      modifies servers, masters
      ensures Valid() && forall x :: x in servers.slice <==> x in old(servers.slice) && x.addr != server.addr
    {
      var other := masters.Remove(server);
      other := servers.Remove(server);
    }
  }
}
