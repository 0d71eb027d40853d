/**
 The tables `groups`, `group_relationships` and `group_lineage` as updated in place, with the
 memberships and grants that name groups, and the service operations over them. `Valid` is the
 promise every service operation keeps: the hierarchy is acyclic and the closure table is exact.
 */
module GroupStore {
  import opened GroupGraph
  import opened Access

  datatype InsertOutcome = Inserted | AlreadyPresent | ConstraintViolation

  datatype AddChildOutcome =
    | Added
    | SelfReference
    | ParentNotFound
    | ChildNotFound
    | IdpCannotBeParent
    | RelationshipExists
    | WouldCreateCycle

  datatype DeleteOutcome = Deleted | GroupNotFound | IdpGroupActive | HasRelationships

  class Groups {
    var groups: set<GroupId>
    var edges: set<Pair>
    var lineage: map<Pair, nat>
    var members: set<(UserId, GroupId)>
    var grants: set<(App, GroupId)>

    ghost predicate Consistent()
      reads this
    {
      WellFormed(groups, edges) && Exact(groups, edges, lineage)
    }

    ghost predicate Valid()
      reads this
    {
      Consistent() && Acyclic(edges)
    }

    constructor ()
      ensures Valid() && groups == {} && edges == {} && lineage == map[] && members == {} && grants == {}
    {
      groups, edges, lineage, members, grants := {}, {}, map[], {}, {};
      new;
      forall a, n: nat | n > 0
        ensures !Walk(edges, a, a, n)
      {
      }
    }

    /** `create_group`: the group row and its depth-0 lineage row, in one transaction. */
    method CreateGroup(g: GroupId)
      requires Valid() && g !in groups
      modifies `groups, `lineage
      ensures Valid()
      ensures groups == old(groups) + {g} && edges == old(edges)
      ensures lineage == old(lineage)[(g, g) := 0]
    {
      CreateExact(groups, edges, lineage, g);
      groups := groups + {g};
      lineage := lineage[(g, g) := 0];
    }

    /** `is_ancestor_of`: one indexed lookup decides reachability. */
    method IsAncestorOf(a: GroupId, d: GroupId) returns (r: bool)
      requires Consistent()
      ensures r <==> a in groups && exists n: nat :: Chain(edges, a, d, n)
    {
      r := (a, d) in lineage;
      if r {
        assert Chain(edges, a, d, lineage[(a, d)]);
      }
    }

    /**
     `add_group_relationship`: it does not look for cycles itself, and its lineage update
     stays exact even when the new edge closes one.
     */
    method AddGroupRelationship(p: GroupId, c: GroupId) returns (r: InsertOutcome)
      requires Consistent()
      modifies `edges, `lineage
      ensures Consistent()
      ensures r.ConstraintViolation? <==> p !in groups || c !in groups || p == c
      ensures r.AlreadyPresent? <==> !r.ConstraintViolation? && (p, c) in old(edges)
      ensures r.Inserted? ==> edges == old(edges) + {(p, c)}
      ensures !r.Inserted? ==> edges == old(edges) && lineage == old(lineage)
    {
      if p !in groups || c !in groups || p == c {
        return ConstraintViolation;
      }
      if (p, c) in edges {
        return AlreadyPresent;
      }
      LinkedIsExact(groups, edges, lineage, p, c);
      edges := edges + {(p, c)};
      lineage := Linked(lineage, p, c);
      r := Inserted;
    }

    /** `add_child`: rejects an edge for a cycle exactly when the edge would close one. */
    method AddChild(p: GroupId, c: GroupId, leafOnly: bool) returns (r: AddChildOutcome)
      requires Valid()
      modifies `edges, `lineage
      ensures Valid()
      ensures r.Added? ==> edges == old(edges) + {(p, c)}
      ensures !r.Added? ==> edges == old(edges) && lineage == old(lineage)
      ensures r ==
              if p == c then SelfReference
              else if p !in groups then ParentNotFound
              else if c !in groups then ChildNotFound
              else if leafOnly then IdpCannotBeParent
              else if (p, c) in old(edges) then RelationshipExists
              else if !Acyclic(old(edges) + {(p, c)}) then WouldCreateCycle
              else Added
    {
      if p == c {
        return SelfReference;
      }
      if p !in groups {
        return ParentNotFound;
      }
      if c !in groups {
        return ChildNotFound;
      }
      if leafOnly {
        return IdpCannotBeParent;
      }
      if (p, c) in edges {
        return RelationshipExists;
      }
      CycleIffAncestor(groups, edges, lineage, p, c);
      var wouldCreateCycle := IsAncestorOf(c, p);
      if wouldCreateCycle {
        return WouldCreateCycle;
      }
      var inserted := AddGroupRelationship(p, c);
      r := Added;
    }

    /**
     `remove_group_relationship`: delete the edge, drop every non-self row of the affected
     descendants, and rebuild those rows from the remaining edges.
     */
    method RemoveGroupRelationship(p: GroupId, c: GroupId) returns (deleted: nat)
      requires Valid()
      modifies `edges, `lineage
      ensures Valid()
      ensures edges == old(edges) - {(p, c)}
      ensures deleted == if (p, c) in old(edges) then 1 else 0
      ensures deleted == 0 ==> lineage == old(lineage)
    {
      if (p, c) !in edges {
        return 0;
      }
      var remaining := edges - {(p, c)};
      FewerEdgesAcyclic(edges, remaining);
      var descendants := set k | k in lineage && k.0 == c :: k.1;
      // The early return for an empty list never fires: the child is one of its own descendants.
      assert Chain(edges, c, c, 0);
      assert (c, c) in lineage;
      assert c in descendants;
      AcyclicHasNoCycleInto(remaining, descendants);
      var rows := RecursiveReach(groups, remaining, descendants);
      RelinkedIsExact(groups, edges, lineage, p, c, descendants, rows);
      edges := remaining;
      lineage := Relinked(Pruned(lineage, descendants), rows);
      return 1;
    }

    /**
     `remove_all_relationships`: every edge of the group goes except those an identity provider manages,
     which are skipped; a missing group is an error.
     */
    method RemoveAllRelationships(g: GroupId, managed: set<Pair>) returns (found: bool, count: nat)
      requires Valid()
      modifies `edges, `lineage
      ensures Valid() && found == (g in groups)
      ensures edges == if found then EdgesWithout(old(edges), g) + (old(edges) * managed) else old(edges)
      ensures count == |old(edges)| - |edges|
      ensures !found ==> lineage == old(lineage)
    {
      count := 0;
      if g !in groups {
        return false, 0;
      }
      var todo := set e | e in edges && (e.0 == g || e.1 == g) && e !in managed;
      ghost var kept := EdgesWithout(edges, g) + (edges * managed);
      assert edges == kept + todo && todo !! kept;
      while todo != {}
        invariant Valid()
        invariant todo !! kept && edges == kept + todo
        invariant count == |old(edges)| - |edges|
        decreases |todo|
      {
        var e :| e in todo;
        var n := RemoveGroupRelationship(e.0, e.1);
        todo := todo - {e};
        count := count + n;
      }
      found := true;
    }

    /** `database.groups.delete_group`: the row and whatever names it by foreign key. */
    method DeleteRow(g: GroupId) returns (deleted: nat)
      requires Valid()
      modifies this
      ensures groups == old(groups) - {g}
      ensures edges == EdgesWithout(old(edges), g) && lineage == LineageWithout(old(lineage), g)
      ensures members == (set m | m in old(members) && m.1 != g) && grants == (set s | s in old(grants) && s.1 != g)
      ensures deleted == if g in old(groups) then 1 else 0
      ensures Valid() <==> Bridged(old(edges), g)
    {
      DeleteExactIffBridged(groups, edges, lineage, g);
      deleted := if g in groups then 1 else 0;
      var remaining := EdgesWithout(edges, g);
      FewerEdgesAcyclic(edges, remaining);
      groups := groups - {g};
      edges := remaining;
      lineage := LineageWithout(lineage, g);
      members := set m | m in members && m.1 != g;
      grants := set s | s in grants && s.1 != g;
    }

    /** `services.groups.delete_group`: demanding that all relationships are gone first keeps the table exact. */
    method DeleteGroup(g: GroupId, activeIdpGroup: bool) returns (r: DeleteOutcome)
      requires Valid()
      modifies this
      ensures Valid()
      ensures r ==
              if g !in old(groups) then GroupNotFound
              else if activeIdpGroup then IdpGroupActive
              else if exists e :: e in old(edges) && (e.0 == g || e.1 == g) then HasRelationships
              else Deleted
      ensures groups == if r.Deleted? then old(groups) - {g} else old(groups)
      ensures edges == old(edges)
      ensures !r.Deleted? ==> lineage == old(lineage) && members == old(members) && grants == old(grants)
      ensures r.Deleted? ==>
                members == (set m | m in old(members) && m.1 != g) && grants == (set s | s in old(grants) && s.1 != g)
    {
      if g !in groups {
        return GroupNotFound;
      }
      if activeIdpGroup {
        return IdpGroupActive;
      }
      if e :| e in edges && (e.0 == g || e.1 == g) {
        assert e !in EdgesWithout(edges, g);
        return HasRelationships;
      }
      assert EdgesWithout(edges, g) == edges;
      var n := DeleteRow(g);
      r := Deleted;
    }
  }
}
