/**
 * The `Grouping` entity: a grouping's path and derived name, its five
 * sub-groups (never null), its sync destinations kept both as a list and as a
 * name-to-flag map, and its opt-in / opt-out flags.
 */
module Groupings {
  import opened Wrappers
  import opened Paths
  import opened SyncState

  /**
   * A group of members. `EmptyGroup` is the group put in place of a missing
   * one; the group's own membership logic is not part of this model.
   */
  datatype Group = EmptyGroup | Group(path: string, members: seq<string>)

  /** The exceptions a `Grouping` operation can throw. */
  datatype Exception = NullPointerException

  /** A destination a grouping's membership can be synced to, with its on/off flag. */
  class SyncDestination {
    var name: string
    var synced: bool

    constructor (name: string, synced: bool)
      ensures this.name == name && this.synced == synced
    {
      this.name := name;
      this.synced := synced;
    }

    method SetSynced(synced: bool)
      modifies this`synced
      ensures this.synced == synced
    {
      this.synced := synced;
    }
  }

  /** The (name, synced) pairs of a list of destinations, in list order. */
  function Entries(ds: seq<SyncDestination>): seq<Entry>
    reads ds
  {
    seq(|ds|, i reads ds requires 0 <= i < |ds| => (ds[i].name, ds[i].synced))
  }

  /** The group a setter stores: its argument, or an empty group for null. */
  function OrEmpty(g: Option<Group>): Group
  {
    if g.Some? then g.value else EmptyGroup
  }

  class Grouping {
    var path: string
    var name: string
    var description: string
    var basis: Group
    var exclude: Group
    var includeGroup: Group  // `include` is a Dafny keyword
    var composite: Group
    var owners: Group
    var syncDestinations: seq<SyncDestination>
    var syncDestinationsState: map<string, bool>
    var isOptInOn: bool
    var isOptOutOn: bool

    /** The name is the last segment of the path (true until `SetName` overwrites the name). */
    ghost predicate NameFromPath()
      reads this
    {
      name == LastSegment(path)
    }

    /** The state map agrees with the destination list (see `SyncState.Agrees`). */
    ghost predicate SyncConsistent()
      reads this, syncDestinations
    {
      Agrees(syncDestinationsState, Entries(syncDestinations))
    }

    /** `new Grouping(path)`: a null path stands for "". */
    constructor (path: Option<string>)
      ensures this.path == (if path.Some? then path.value else "")
      ensures NameFromPath()
      ensures description == ""
      ensures basis == EmptyGroup && exclude == EmptyGroup && includeGroup == EmptyGroup
      ensures composite == EmptyGroup && owners == EmptyGroup
      ensures syncDestinations == [] && syncDestinationsState == map[]
      ensures !isOptInOn && !isOptOutOn
      ensures SyncConsistent()
    {
      // the effect of setDescription("") and of each group setter given a fresh empty group
      description := "";
      basis, exclude, includeGroup, composite, owners := EmptyGroup, EmptyGroup, EmptyGroup, EmptyGroup, EmptyGroup;
      syncDestinations := [];
      syncDestinationsState := map[];
      isOptInOn := false;
      isOptOutOn := false;
      new;
      SetPath(path);
    }

    /** `new Grouping()`, which is `new Grouping("")`. */
    constructor Default()
      ensures path == "" && name == "" && description == ""
      ensures NameFromPath()
      ensures basis == EmptyGroup && exclude == EmptyGroup && includeGroup == EmptyGroup
      ensures composite == EmptyGroup && owners == EmptyGroup
      ensures syncDestinations == [] && syncDestinationsState == map[]
      ensures !isOptInOn && !isOptOutOn
      ensures SyncConsistent()
    {
      // the effect of setDescription("") and of each group setter given a fresh empty group
      description := "";
      basis, exclude, includeGroup, composite, owners := EmptyGroup, EmptyGroup, EmptyGroup, EmptyGroup, EmptyGroup;
      syncDestinations := [];
      syncDestinationsState := map[];
      isOptInOn := false;
      isOptOutOn := false;
      // the effect of setPath("")
      path, name := "", "";
    }

    /**
     * Stores the path (null becomes "") and derives the name from it: the text
     * after the last ':', so the name holds no ':' and ends the path.
     */
    method SetPath(p: Option<string>)
      modifies this`path, this`name
      ensures path == (if p.Some? then p.value else "")
      ensures NameFromPath()
      ensures ':' !in name && path[|path| - |name|..] == name
    {
      path := if p.Some? then p.value else "";
      name := path;
      var index := LastIndexOf(name, ':');
      if index != -1 {
        name := name[index + 1..];
      }
    }

    /** Overwrites the name alone; the path is left as it was. */
    method SetName(name: string)
      modifies this`name
      ensures this.name == name
    {
      this.name := name;
    }

    method SetDescription(description: string)
      modifies this`description
      ensures this.description == description
    {
      this.description := description;
    }

    method SetBasis(g: Option<Group>)
      modifies this`basis
      ensures basis == OrEmpty(g)
    {
      basis := OrEmpty(g);
    }

    method SetExclude(g: Option<Group>)
      modifies this`exclude
      ensures exclude == OrEmpty(g)
    {
      exclude := OrEmpty(g);
    }

    method SetInclude(g: Option<Group>)
      modifies this`includeGroup
      ensures includeGroup == OrEmpty(g)
    {
      includeGroup := OrEmpty(g);
    }

    method SetComposite(g: Option<Group>)
      modifies this`composite
      ensures composite == OrEmpty(g)
    {
      composite := OrEmpty(g);
    }

    method SetOwners(g: Option<Group>)
      modifies this`owners
      ensures owners == OrEmpty(g)
    {
      owners := OrEmpty(g);
    }

    method SetOptInOn(on: bool)
      modifies this`isOptInOn
      ensures isOptInOn == on
    {
      isOptInOn := on;
    }

    method SetOptOutOn(on: bool)
      modifies this`isOptOutOn
      ensures isOptOutOn == on
    {
      isOptOutOn := on;
    }

    /**
     * Takes `ds` as the destination list and puts each destination's flag into
     * the state map, in list order. The map is not cleared first.
     */
    method SetSyncDestinations(ds: seq<SyncDestination>)
      modifies this`syncDestinations, this`syncDestinationsState
      ensures syncDestinations == ds
      ensures syncDestinationsState == PutAll(old(syncDestinationsState), Entries(ds))
      ensures SyncConsistent()
    {
      syncDestinations := ds;
      for i := 0 to |ds|
        invariant syncDestinations == ds
        invariant syncDestinationsState == PutAll(old(syncDestinationsState), Entries(ds)[..i])
      {
        assert Entries(ds)[..i + 1][..i] == Entries(ds)[..i];
        syncDestinationsState := syncDestinationsState[ds[i].name := ds[i].synced];
      }
      assert Entries(ds)[..|ds|] == Entries(ds);
      PutAllAgrees(old(syncDestinationsState), Entries(ds));
    }

    /** The state map's flag for `key`; unboxing the missing value of an absent key throws. */
    method IsSyncDestinationOn(key: string) returns (r: Result<bool, Exception>)
      ensures key in syncDestinationsState ==> r == Ok(syncDestinationsState[key])
      ensures key !in syncDestinationsState ==> r == Err(NullPointerException)
      ensures SyncConsistent() && LastNamed(Entries(syncDestinations), key) != -1 ==>
                r == Ok(syncDestinations[LastNamed(Entries(syncDestinations), key)].synced)
    {
      if key in syncDestinationsState {
        r := Ok(syncDestinationsState[key]);
      } else {
        r := Err(NullPointerException);
      }
    }

    /**
     * Sets the map value of `key` to `b` when `key` is already a key, and sets the
     * flag of every listed destination named `key` to `b`. It keeps the map in
     * agreement with the list.
     */
    method ChangeSyncDestinationState(key: string, b: bool)
      modifies this`syncDestinationsState, syncDestinations
      ensures syncDestinations == old(syncDestinations)
      ensures syncDestinationsState == Replace(old(syncDestinationsState), key, b)
      ensures forall d :: d in syncDestinations ==>
                d.name == old(d.name) && d.synced == (if d.name == key then b else old(d.synced))
      ensures Entries(syncDestinations) == SetNamed(old(Entries(syncDestinations)), key, b)
      ensures old(SyncConsistent()) ==> SyncConsistent()
    {
      syncDestinationsState := Replace(syncDestinationsState, key, b);
      for i := 0 to |syncDestinations|
        invariant syncDestinationsState == Replace(old(syncDestinationsState), key, b)
        invariant forall d :: d in syncDestinations ==> d.name == old(d.name)
        invariant forall d :: d in syncDestinations ==>
                    d.synced == (if d.name == key && d in syncDestinations[..i] then b else old(d.synced))
      {
        var destination := syncDestinations[i];
        if destination.name == key {
          destination.SetSynced(b);
        }
      }
      ghost var es := old(Entries(syncDestinations));
      assert Entries(syncDestinations) == SetNamed(es, key, b) by {
        forall j | 0 <= j < |syncDestinations|
          ensures Entries(syncDestinations)[j] == SetNamed(es, key, b)[j]
        {
          assert syncDestinations[j] in syncDestinations;
        }
      }
      if old(SyncConsistent()) {
        ReplaceKeepsAgreement(old(syncDestinationsState), es, key, b);
      }
    }
  }
}
