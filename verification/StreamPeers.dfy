/** The streams of one process: which children each one sends to, and how a failure updates that. */
module StreamPeers {
  import opened Prelude
  import opened Forest
  import opened NetworkTopology
  import opened Router

  datatype StreamRec = StreamRec(endPoints: set<Rank>, peers: set<Rank>, closed: bool)

  function Outlets(table: map<Rank, Rank>, endPoints: set<Rank>): set<Rank> {
    set e | e in endPoints && e in table :: table[e]
  }

  /** What recompute_ChildrenNodes makes of a stream: closed streams are left alone. */
  function Recomputed(s: StreamRec, table: map<Rank, Rank>): StreamRec {
    if s.closed then s else s.(peers := Outlets(table, s.endPoints))
  }

  /** What Stream::remove_Node makes of a stream. */
  function WithoutPeer(s: StreamRec, failed: Rank, breaks: bool): StreamRec {
    if s.closed || failed !in s.peers then s
    else if breaks then s.(peers := {}, closed := true)
    else s.(peers := s.peers - {failed})
  }

  class Network {
    const topo: Topology
    const router: RouterTable
    const localRank: Rank
    const isFrontEnd: bool
    const recovers: bool
    var connected: set<Rank>           // ranks of the peer nodes there is a connection to
    var streams: map<nat, StreamRec>

    constructor (topo: Topology, router: RouterTable, localRank: Rank, isFrontEnd: bool, recovers: bool)
      ensures this.topo == topo && this.router == router && this.localRank == localRank
      ensures this.isFrontEnd == isFrontEnd && this.recovers == recovers
      ensures connected == {} && streams == map[]
    {
      this.topo, this.router, this.localRank := topo, router, localRank;
      this.isFrontEnd, this.recovers := isFrontEnd, recovers;
      connected, streams := {}, map[];
    }

    method RecomputeChildrenNodes(id: nat)
      requires id in streams
      modifies `streams
      ensures streams == old(streams)[id := Recomputed(old(streams)[id], router.table)]
      ensures streams[id].closed == old(streams)[id].closed && streams[id].endPoints == old(streams)[id].endPoints
      ensures old(streams)[id].closed ==> streams[id].peers == old(streams)[id].peers
      ensures !old(streams)[id].closed ==> forall c :: c in streams[id].peers <==>
        exists e :: e in streams[id].endPoints && e in router.table && router.table[e] == c
    {
      var s := streams[id];
      if s.closed {
        SameEntry(streams, id);
        return;
      }
      var peers: set<Rank> := {};
      var rest := s.endPoints;
      while rest != {}
        invariant rest <= s.endPoints
        invariant peers == Outlets(router.table, s.endPoints - rest) && streams == old(streams)
        decreases rest
      {
        var e :| e in rest;
        assert s.endPoints - (rest - {e}) == (s.endPoints - rest) + {e};
        OutletsMore(router.table, s.endPoints - rest, e);
        var outlet := router.GetOutletNode(e);
        if outlet.Some? {
          peers := peers + {outlet.value};
        }
        rest := rest - {e};
      }
      assert s.endPoints - {} == s.endPoints;
      streams := streams[id := s.(peers := peers)];
    }

    method UpdateStreams()
      modifies `streams
      ensures streams.Keys == old(streams).Keys
      ensures forall id :: id in streams ==> streams[id] == Recomputed(old(streams)[id], router.table)
    {
      var rest := streams.Keys;
      while rest != {}
        invariant rest <= streams.Keys == old(streams).Keys
        invariant forall id :: id in streams ==>
          streams[id] == if id in rest then old(streams)[id] else Recomputed(old(streams)[id], router.table)
        decreases rest
      {
        var id :| id in rest;
        RecomputeChildrenNodes(id);
        rest := rest - {id};
      }
    }

    method RemoveFromStreams(failed: Rank)
      modifies `streams
      ensures streams.Keys == old(streams).Keys
      ensures forall id :: id in streams ==> streams[id] == WithoutPeer(old(streams)[id], failed, isFrontEnd && !recovers)
    {
      var rest := streams.Keys;
      while rest != {}
        invariant rest <= streams.Keys == old(streams).Keys
        invariant forall id :: id in streams ==>
          streams[id] == if id in rest then old(streams)[id] else WithoutPeer(old(streams)[id], failed, isFrontEnd && !recovers)
        decreases rest
      {
        var id :| id in rest;
        RemoveStreamNode(id, failed);
        rest := rest - {id};
      }
    }

    method RemoveStreamNode(id: nat, failed: Rank)
      requires id in streams
      modifies `streams
      ensures streams == old(streams)[id := WithoutPeer(old(streams)[id], failed, isFrontEnd && !recovers)]
    {
      var s := streams[id];
      SameEntry(streams, id);
      if s.closed {
        return;
      }
      if failed in s.peers {
        if isFrontEnd && !recovers {
          // without recovery the back ends below the failed peer never come back
          streams := streams[id := s.(peers := {}, closed := true)];
        } else {
          streams := streams[id := s.(peers := s.peers - {failed})];
        }
      }
    }

    /** NetworkTopology::remove_Node; the table is recomputed only if the rank was known. */
    method RemoveFromTopology(failed: Rank, update: bool)
      requires Inv(topo.View())
      modifies topo, router
      ensures topo.View() == Forest.RemoveNode(old(topo.View()), failed).0 && Inv(topo.View())
      ensures update && failed in old(topo.nodes) ==> Routes(topo.View(), localRank, connected, router.table)
      ensures !(update && failed in old(topo.nodes)) ==> router.table == old(router.table)
    {
      RemoveKeepsInv(topo.View(), failed);
      var found := topo.RemoveNode(failed);
      if found && update {
        router.UpdateTable(topo, localRank, connected);
      }
    }

    /**
     * remove_Node: drops the connection, the topology node and the stream peers.  With `update`, every open
     * stream then sends to exactly the outlets of its end points, and if the rank was known the table is that of the new tree.
     * Without it, the rank goes from the peers of every open stream.  A stream the failure breaks has no peers left.
     */
    method RemoveNode(failed: Rank, update: bool)
      requires Inv(topo.View())
      modifies this, topo, router
      ensures topo.View() == Forest.RemoveNode(old(topo.View()), failed).0 && Inv(topo.View())
      ensures connected == old(connected) - {failed}
      ensures streams.Keys == old(streams).Keys
      ensures forall id :: id in streams ==> streams[id].endPoints == old(streams)[id].endPoints
      ensures forall id :: id in streams ==> (streams[id].closed <==>
        old(streams)[id].closed || (isFrontEnd && !recovers && failed in old(streams)[id].peers))
      ensures update ==> forall id :: id in streams && !streams[id].closed ==>
        streams[id].peers == Outlets(router.table, streams[id].endPoints)
      ensures !update ==> forall id :: id in streams && !streams[id].closed ==>
        streams[id].peers == old(streams)[id].peers - {failed}
      ensures forall id :: id in streams && streams[id].closed && !old(streams)[id].closed ==> streams[id].peers == {}
      ensures forall id :: id in streams && old(streams)[id].closed ==> streams[id] == old(streams)[id]
      ensures update && failed in old(topo.nodes) ==> Routes(topo.View(), localRank, connected, router.table)
      ensures !(update && failed in old(topo.nodes)) ==> router.table == old(router.table)
    {
      connected := connected - {failed};
      RemoveFromTopology(failed, update);
      RemoveFromStreams(failed);
      if update {
        UpdateStreams();
      }
    }
  }

  lemma SameEntry(m: map<nat, StreamRec>, id: nat)
    requires id in m
    ensures m == m[id := m[id]]
  {
  }

  lemma OutletsMore(table: map<Rank, Rank>, some: set<Rank>, e: Rank)
    ensures Outlets(table, some + {e}) == Outlets(table, some) + if e in table then {table[e]} else {}
  {
  }

  /** A child belongs to a stream's peers exactly when it is connected and one of the end points is below it. */
  lemma OutletsAreChildrenTowards(t: Topo, local: Rank, connected: set<Rank>, table: map<Rank, Rank>, endPoints: set<Rank>, c: Rank)
    requires Routes(t, local, connected, table)
    ensures c in Outlets(table, endPoints) <==> c in connected && exists e :: e in endPoints && Below(t, local, c, e)
  {
    if c in Outlets(table, endPoints) {
      var e :| e in endPoints && e in table && table[e] == c;
      assert Below(t, local, c, e);
    }
    if c in connected && exists e :: e in endPoints && Below(t, local, c, e) {
      var e :| e in endPoints && Below(t, local, c, e);
      assert e in table && table[e] == c;
    }
  }
}
