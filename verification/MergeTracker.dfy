/**
 The record of which hostiles have merged with which friendlies.
 */
module MergeTrackers {
  import opened Trackfiles

  // hostile ID -> IDs of the friendlies it has merged with
  type Merged = map<ID, set<ID>>

  predicate Pair(m: Merged, hostile: ID, friend: ID) {
    hostile in m && friend in m[hostile]
  }

  predicate NoEmptySets(m: Merged) {
    forall h :: h in m ==> m[h] != {}
  }

  class MergeTracker {
    var merged: Merged

    ghost predicate Valid()
      reads this
    {
      NoEmptySets(merged)
    }

    constructor ()
      ensures Valid() && merged == map[]
    {
      merged := map[];
    }

    method Merge(hostileID: ID, friendID: ID)
      requires Valid()
      modifies this
      ensures Valid()
      ensures forall h, f :: Pair(merged, h, f) <==> Pair(old(merged), h, f) || (h == hostileID && f == friendID)
    {
      var friendIDs := {};
      if hostileID in merged {
        friendIDs := merged[hostileID];
      }
      merged := merged[hostileID := friendIDs + {friendID}];
    }

    predicate IsMerged(hostileID: ID, friendID: ID)
      reads this
    {
      hostileID in merged && friendID in merged[hostileID]
    }

    method FriendliesMergedWith(hostileIDs: seq<ID>) returns (friends: set<ID>)
      requires Valid()
      ensures forall f :: f in friends <==> exists h :: h in hostileIDs && Pair(merged, h, f)
    {
      friends := {};
      for i := 0 to |hostileIDs|
        invariant forall f :: f in friends <==> exists h :: h in hostileIDs[..i] && Pair(merged, h, f)
      {
        var h := hostileIDs[i];
        assert hostileIDs[..i + 1] == hostileIDs[..i] + [h];
        ghost var before := friends;
        if h in merged {
          friends := friends + merged[h];
        }
        forall f ensures f in friends <==> exists g :: g in hostileIDs[..i + 1] && Pair(merged, g, f) {
          if f in friends && f !in before {
            assert Pair(merged, h, f) && h in hostileIDs[..i + 1];
          }
        }
      }
      assert hostileIDs[..|hostileIDs|] == hostileIDs;
    }

    method Separate(hostileID: ID, friendID: ID)
      requires Valid()
      modifies this
      ensures Valid()
      ensures forall h, f :: Pair(merged, h, f) <==> Pair(old(merged), h, f) && !(h == hostileID && f == friendID)
    {
      if hostileID !in merged {
        return;
      }
      var friendIDs := merged[hostileID] - {friendID};
      assert forall f :: f in merged[hostileID] <==> f in friendIDs || (f == friendID && Pair(merged, hostileID, f));
      if friendIDs == {} {
        merged := merged - {hostileID};
      } else {
        merged := merged[hostileID := friendIDs];
      }
    }

    // A known hostile is dropped with its whole entry; any other ID is taken
    // for a friendly and dropped from every entry.
    method Remove(id: ID)
      requires Valid()
      modifies this
      ensures Valid() && merged == Removed(old(merged), id)
    {
      if id in merged {
        merged := merged - {id};
        return;
      }
      var remaining := merged.Keys;
      while remaining != {}
        invariant remaining <= old(merged).Keys
        invariant forall h :: h in merged <==> h in remaining || (h in old(merged) && old(merged)[h] - {id} != {})
        invariant forall h :: h in remaining ==> merged[h] == old(merged)[h]
        invariant forall h :: h in merged && h !in remaining ==> merged[h] == old(merged)[h] - {id}
      {
        var h :| h in remaining;
        var friendIDs := merged[h] - {id};
        if friendIDs == {} {
          merged := merged - {h};
        } else {
          merged := merged[h := friendIDs];
        }
        remaining := remaining - {h};
      }
    }

    // Drops every hostile that is not listed.
    method Keep(idsToKeep: seq<ID>)
      requires Valid()
      modifies this
      ensures Valid()
      ensures forall h, f :: Pair(merged, h, f) <==> Pair(old(merged), h, f) && h in idsToKeep
    {
      var remaining := merged.Keys;
      while remaining != {}
        invariant remaining <= old(merged).Keys
        invariant forall h :: h in merged <==> h in remaining || (h in old(merged) && h in idsToKeep)
        invariant forall h :: h in merged ==> merged[h] == old(merged)[h]
      {
        var h :| h in remaining;
        if h !in idsToKeep {
          merged := merged - {h};
        }
        remaining := remaining - {h};
      }
    }

    method Reset()
      modifies this
      ensures Valid() && merged == map[]
    {
      merged := map[];
    }
  }

  // ---- Removing an ID ------------------------------------------------------------------

  function Removed(m: Merged, id: ID): (r: Merged)
  {
    if id in m then m - {id}
    else map h | h in m && m[h] - {id} != {} :: m[h] - {id}
  }

  ghost predicate Mentions(m: Merged, id: ID) {
    exists h, f :: Pair(m, h, f) && (h == id || f == id)
  }

  // Removing an ID leaves it nowhere, exactly unless it was recorded as a
  // hostile and as another hostile's friendly at once.
  lemma RemoveForgetsIff(m: Merged, id: ID)
    requires NoEmptySets(m)
    ensures NoEmptySets(Removed(m, id))
    ensures !Mentions(Removed(m, id), id) <==> !(id in m && exists h :: h != id && Pair(m, h, id))
  {
    var r := Removed(m, id);
    if id in m {
      assert forall h, f :: Pair(r, h, f) <==> h != id && Pair(m, h, f);
      if Mentions(r, id) {
        var h, f :| Pair(r, h, f) && (h == id || f == id);
        assert h != id && Pair(m, h, id);
      } else {
        assert forall h :: h != id && Pair(m, h, id) ==> Pair(r, h, id);
      }
    } else {
      assert forall h :: !Pair(r, h, id) && !Pair(r, id, h);
      if Mentions(r, id) {
        var h, f :| Pair(r, h, f) && (h == id || f == id);
        assert false;
      }
    }
  }

  // Everything else is kept.
  lemma RemoveKeepsOthers(m: Merged, id: ID, h: ID, f: ID)
    requires h != id && f != id
    ensures Pair(Removed(m, id), h, f) <==> Pair(m, h, f)
  {
    if Pair(m, h, f) && id !in m {
      assert f in m[h] - {id};
    }
  }
}
