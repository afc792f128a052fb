/** The routing table of one process, and the peers its streams derive from it. */
module Router {
  import opened Prelude
  import opened Forest
  import opened Trees
  import opened NetworkTopology

  /**
   The table leads to child c for exactly the live ranks in c's subtree, for those children
   of the local node to which there is a connection.
   */
  ghost predicate Routes(t: Topo, local: Rank, connected: set<Rank>, table: map<Rank, Rank>) {
    forall r, c {:trigger Below(t, local, c, r)} ::
      (r in table && table[r] == c) <==> (Below(t, local, c, r) && c in connected)
  }

  /** c is a child of the local node and r a live rank in its subtree. */
  ghost predicate Below(t: Topo, local: Rank, c: Rank, r: Rank) {
    local in t.kids && c in t.kids[local] && r in t.parent && InSubtree(t, c, r)
  }

  /** The table after the children in `done` have been entered. */
  ghost predicate PartlyRouted(t: Topo, local: Rank, connected: set<Rank>, done: set<Rank>, table: map<Rank, Rank>) {
    Routes(t, local, connected * done, table)
  }

  function WithAll(table: map<Rank, Rank>, keys: seq<Rank>, c: Rank): map<Rank, Rank> {
    if keys == [] then table else WithAll(table, keys[..|keys| - 1], c)[keys[|keys| - 1] := c]
  }

  lemma {:induction false} WithAllCons(table: map<Rank, Rank>, c: Rank, keys: seq<Rank>)
    ensures WithAll(table[c := c], keys, c) == WithAll(table, [c] + keys, c)
    decreases |keys|
  {
    if keys == [] {
      assert ([c] + keys)[..0] == [];
    } else {
      assert ([c] + keys)[..|keys|] == [c] + keys[..|keys| - 1];
      WithAllCons(table, c, keys[..|keys| - 1]);
    }
  }

  lemma {:induction false} WithAllMeans(table: map<Rank, Rank>, keys: seq<Rank>, c: Rank, r: Rank)
    ensures r in WithAll(table, keys, c) <==> r in table || r in keys
    ensures r in WithAll(table, keys, c) ==> WithAll(table, keys, c)[r] == if r in keys then c else table[r]
  {
    if keys != [] {
      WithAllMeans(table, keys[..|keys| - 1], c, r);
      assert keys == keys[..|keys| - 1] + [keys[|keys| - 1]];
    }
  }

  /** Entering one more connected child and everything below it. */
  lemma RoutedMore(t: Topo, local: Rank, connected: set<Rank>, done: set<Rank>, table: map<Rank, Rank>, seen: Tree)
    requires Inv(t) && local in t.kids && seen.rank in t.kids[local] && seen.rank !in done && done <= t.kids[local]
    requires PartlyRouted(t, local, connected, done, table) && Represents(t, seen) && seen.rank in connected
    ensures PartlyRouted(t, local, connected, done + {seen.rank}, WithAll(table, Ranks(seen), seen.rank))
  {
    var more := WithAll(table, Ranks(seen), seen.rank);
    forall r, c ensures (r in more && more[r] == c) <==> (Below(t, local, c, r) && c in connected * (done + {seen.rank})) {
      WithAllMeans(table, Ranks(seen), seen.rank, r);
      RanksAreSubtree(t, seen, r);
      RoutedElsewhere(t, local, connected, done, table, seen.rank, r, c);
    }
  }

  lemma RoutedElsewhere(t: Topo, local: Rank, connected: set<Rank>, done: set<Rank>, table: map<Rank, Rank>, k: Rank, r: Rank, c: Rank)
    requires Inv(t) && local in t.kids && k in t.kids[local] && k !in done && PartlyRouted(t, local, connected, done, table)
    ensures (r in table && table[r] == c) <==> (Below(t, local, c, r) && c in connected * done)
    ensures Below(t, local, k, r) && Below(t, local, c, r) ==> c == k
  {
    if Below(t, local, k, r) && Below(t, local, c, r) {
      KidLinked(t, local, k);
      KidLinked(t, local, c);
      SiblingsApart(t, local, k, c, r);
    }
  }

  /** A child without a connection gets no entries. */
  lemma RoutedNone(t: Topo, local: Rank, connected: set<Rank>, done: set<Rank>, table: map<Rank, Rank>, c: Rank)
    requires PartlyRouted(t, local, connected, done, table) && c !in connected
    ensures PartlyRouted(t, local, connected, done + {c}, table)
  {
    assert connected * (done + {c}) == connected * done;
  }

  class RouterTable {
    var table: map<Rank, Rank>

    constructor ()
      ensures table == map[]
    {
      table := map[];
    }

    /** update_Table: clears the table and enters every connected child with all its descendants. */
    method UpdateTable(topo: Topology, local: Rank, connected: set<Rank>)
      requires Inv(topo.View())
      modifies this
      ensures Routes(topo.View(), local, connected, table)
    {
      ghost var t := topo.View();
      table := map[];
      if local in topo.nodes {
        var children := topo.nodes[local].children;
        ghost var tr := TreeAt(t, local, {});
        var rest := children;
        assert connected * (children - rest) == {};
        while rest != {}
          invariant rest <= children && t.kids[local] == children
          invariant PartlyRouted(t, local, connected, children - rest, table)
          decreases rest
        {
          var c :| c in rest;
          assert children - (rest - {c}) == (children - rest) + {c};
          if c in connected {
            EnterChild(topo, local, connected, children - rest, c, tr);
          } else {
            RoutedNone(t, local, connected, children - rest, table, c);
          }
          rest := rest - {c};
        }
        NothingLeft(t, local, connected, children, table);
      }
    }

    method EnterChild(topo: Topology, local: Rank, ghost connected: set<Rank>, ghost done: set<Rank>, c: Rank, ghost tr: Tree)
      requires Inv(topo.View()) && local in topo.nodes && Represents(topo.View(), tr) && tr.rank == local
      requires c in topo.View().kids[local] && c in connected && c !in done && done <= topo.View().kids[local]
      requires PartlyRouted(topo.View(), local, connected, done, table)
      modifies this
      ensures PartlyRouted(topo.View(), local, connected, done + {c}, table)
    {
      ghost var t, was := topo.View(), table;
      ghost var i := KidAt(tr.kids, c);
      KidFacts(t, tr.kids, i);
      table := table[c := c];
      var descendants;
      ghost var seen;
      descendants, seen := topo.GetDescendants(c, tr.kids[i]);
      EnterRanks(descendants, c);
      WithAllCons(was, c, descendants);
      RoutedMore(t, local, connected, done, was, seen);
    }

    /** Every rank of the list gets the same outlet. */
    method EnterRanks(ranks: seq<Rank>, c: Rank)
      modifies this
      ensures table == WithAll(old(table), ranks, c)
    {
      var j := 0;
      while j < |ranks|
        invariant 0 <= j <= |ranks|
        invariant table == WithAll(old(table), ranks[..j], c)
      {
        table := table[ranks[j] := c];
        j := j + 1;
        assert ranks[..j][..j - 1] == ranks[..j - 1];
      }
      assert ranks[..j] == ranks;
    }

    /** get_OutletNode: a plain lookup. */
    method GetOutletNode(r: Rank) returns (outlet: Option<Rank>)
      ensures outlet == if r in table then Some(table[r]) else None
    {
      if r !in table {
        return None;
      }
      outlet := Some(table[r]);
    }
  }

  lemma NothingLeft(t: Topo, local: Rank, connected: set<Rank>, children: set<Rank>, table: map<Rank, Rank>)
    requires local in t.kids && t.kids[local] == children && PartlyRouted(t, local, connected, children - {}, table)
    ensures Routes(t, local, connected, table)
  {
    assert children - {} == children;
  }
}
