# Grouping entity model

A Dafny model of the `Grouping` entity of the UH Groupings API
(`edu.hawaii.its.api.type.Grouping`). A grouping is identified by a
colon-separated path (`tmp:dept:grouping`). Its name is the last segment of
that path. It holds five sub-groups: basis, exclude, include, composite and
owners, and none of them is ever null. It lists the destinations its
membership can be synced to, and it also keeps a map from destination name
to that destination's synced flag. Finally it has two independent flags,
opt-in and opt-out.

The files:

- `wrappers.dfy` (module `Wrappers`): `Option` for a Java reference that may be
  null, and `Result` for a value or a thrown exception.
- `paths.dfy` (module `Paths`): `LastIndexOf` (Java's `String.lastIndexOf`) and
  `LastSegment`, the name `setPath` derives. `LastSegment` is characterised as the
  longest suffix of the path that holds no `':'`, and that characterisation is
  proved to determine it.
- `sync_state.dfy` (module `SyncState`): the sync-destination state as values.
  The list is seen as (name, synced) pairs. `PutAll` is the loop of
  `setSyncDestinations` and `Replace` is Java's `Map.replace`. `Agrees` is the
  invariant that ties the map to the list: every listed name is a key, and its
  value is the flag of the last destination with that name. The lemmas prove
  that filling the map establishes this invariant and that changing a
  destination's state keeps it.
- `grouping.dfy` (module `Groupings`): the `Group` datatype with its `EmptyGroup`
  variant, the `SyncDestination` class (its objects are mutated in place), and
  the `Grouping` class. The class has the source's fields, and each method's
  `modifies` clause names the fields it writes. No method writes any other field.

Two facts about the sync state and the name follow from the code:

- `setName` overwrites the name alone, so `NameFromPath` holds after the
  constructors and `SetPath` and only until `SetName`.
- `setSyncDestinations` never clears the map, so keys of earlier
  destinations survive. A name listed twice follows its last destination.
  `AgreesDistinct` shows that when names are distinct, each destination's
  flag is exactly its map value.

## Model

| member | source | states |
|---|---|---|
| `Paths.LastIndexOf` | src/main/java/edu/hawaii/its/api/type/Grouping.java:126 | the result is -1 exactly when the character is absent; otherwise it is an index holding that character with no occurrence after it |
| `Paths.LastSegment` | src/main/java/edu/hawaii/its/api/type/Grouping.java:125-129 | the derived name holds no ':', is a suffix of the path, and is either the whole path or preceded by a ':' |
| `Paths.LastSegmentUnique` | src/main/java/edu/hawaii/its/api/type/Grouping.java:125-129 | any suffix of the path with those three properties is the derived name, so the contract pins the name down |
| `Paths.LastSegmentOfQualified` | src/main/java/edu/hawaii/its/api/type/Grouping.java:126-128 | for a colon-free segment, the path `prefix:segment` names `segment`, whatever the prefix |
| `Paths.LastSegmentWhole` | src/main/java/edu/hawaii/its/api/type/Grouping.java:125-127 | the name is the whole path exactly when the path has no ':' |
| `Groupings.Grouping.constructor` | src/main/java/edu/hawaii/its/api/type/Grouping.java:69-79 | path is the argument, or "" for null; name is its last segment; description is ""; all five groups are empty; the sync list and map are empty; both opt flags are false; map and list agree |
| `Groupings.Grouping.Default` | src/main/java/edu/hawaii/its/api/type/Grouping.java:64-67 | the no-argument constructor gives path "" and name "", so the name is the last segment of the path, with every other field as in the one-argument constructor |
| `Groupings.Grouping.SetPath` | src/main/java/edu/hawaii/its/api/type/Grouping.java:123-130 | path becomes the argument, or "" for null; name becomes its last segment, so it holds no ':' and ends the path; no other field changes |
| `Groupings.Grouping.SetName` | src/main/java/edu/hawaii/its/api/type/Grouping.java:115-117 | only the name changes, and the path is left as it was |
| `Groupings.Grouping.SetDescription` | src/main/java/edu/hawaii/its/api/type/Grouping.java:132-134 | only the description changes |
| `Groupings.Grouping.SetBasis` | src/main/java/edu/hawaii/its/api/type/Grouping.java:144-146 | basis becomes the argument, or an empty group for null; no other field changes |
| `Groupings.Grouping.SetExclude` | src/main/java/edu/hawaii/its/api/type/Grouping.java:152-154 | exclude becomes the argument, or an empty group for null; no other field changes |
| `Groupings.Grouping.SetInclude` | src/main/java/edu/hawaii/its/api/type/Grouping.java:160-162 | include becomes the argument, or an empty group for null; no other field changes |
| `Groupings.Grouping.SetComposite` | src/main/java/edu/hawaii/its/api/type/Grouping.java:168-170 | composite becomes the argument, or an empty group for null; no other field changes |
| `Groupings.Grouping.SetOwners` | src/main/java/edu/hawaii/its/api/type/Grouping.java:176-178 | owners becomes the argument, or an empty group for null; no other field changes |
| `Groupings.Grouping.SetOptInOn` | src/main/java/edu/hawaii/its/api/type/Grouping.java:184-186 | only the opt-in flag changes; the opt-out flag is untouched |
| `Groupings.Grouping.SetOptOutOn` | src/main/java/edu/hawaii/its/api/type/Grouping.java:192-194 | only the opt-out flag changes; the opt-in flag is untouched |
| `SyncState.LastNamed` | src/main/java/edu/hawaii/its/api/type/Grouping.java:88-90 | gives the position of the last destination with a given name, or -1 exactly when no destination has it; this is the entry whose `put` wins |
| `SyncState.PutAllLookup` | src/main/java/edu/hawaii/its/api/type/Grouping.java:88-91 | after the puts, a listed name maps to the flag of its last destination; any other key keeps its old value, or stays absent |
| `SyncState.PutAllAgrees` | src/main/java/edu/hawaii/its/api/type/Grouping.java:85-92 | whatever the map held before, after the puts it agrees with the list |
| `Groupings.Grouping.SetSyncDestinations` | src/main/java/edu/hawaii/its/api/type/Grouping.java:85-92 | the list becomes the argument; the map is the old map with each destination's flag put in list order; afterwards map and list agree |
| `Groupings.Grouping.IsSyncDestinationOn` | src/main/java/edu/hawaii/its/api/type/Grouping.java:94-97 | returns the map's flag for a key, or a NullPointerException when the key is absent; when map and list agree, a listed name yields the flag of its last destination |
| `SyncState.Replace` | src/main/java/edu/hawaii/its/api/type/Grouping.java:101 | `Map.replace`: the key set is unchanged; an existing key gets the new value; every other key keeps its value |
| `SyncState.SetNamedKeepsLastNamed` | src/main/java/edu/hawaii/its/api/type/Grouping.java:103-107 | setting flags on the destinations named `key` moves no name, so the last destination of each name stays where it is |
| `SyncState.ReplaceKeepsAgreement` | src/main/java/edu/hawaii/its/api/type/Grouping.java:99-109 | replacing the key's value and setting the matching destinations' flags together keep the map in agreement with the list |
| `SyncState.AgreesDistinct` | src/main/java/edu/hawaii/its/api/type/Grouping.java:88-91 | a model-level corollary of agreement: when no two destinations share a name, each destination's flag equals its map value |
| `Groupings.Grouping.ChangeSyncDestinationState` | src/main/java/edu/hawaii/its/api/type/Grouping.java:99-109 | the map gets `replace` semantics; every listed destination named `key` gets the new flag; other destinations and all names are unchanged; agreement is kept |
| `Groupings.SyncDestination.SetSynced` | src/main/java/edu/hawaii/its/api/type/Grouping.java:105 | sets the destination's flag in place and leaves its name alone |

## Left out

- `SyncDestination`, `Group` and `EmptyGroup` are not part of this model. `SyncDestination` is modelled by its name and flag alone. `Group` is an opaque value whose `EmptyGroup` variant stands for "no group", and its membership logic is not modelled.
- Java null `Boolean` values: the map's values, `changeSyncDestinationState`'s flag and `setSynced`'s argument are plain `bool`.
- A null description, a null name and a null destination list are not modelled. `setDescription` and `setName` take a string, and `setSyncDestinations` takes a sequence. With a null list, the Java code would store null and then throw inside the loop.
- Aliasing through the getters: `getSyncDestinations` returns the live list. Code outside the class could change it, or a listed `SyncDestination`'s flag, and break the agreement. The model treats the list as owned by the grouping.
- Getters (`getPath`, `getName`, `getBasis`, ...) are field reads and have no members of their own.
- `toString` is debug formatting only.
- JPA/Hibernate mapping annotations are persistence plumbing with no behaviour.
- The constructors assign the description and the five empty groups directly. The Java constructor calls the setters with non-null arguments, which has the same effect. `Default` also sets the path and the name to "" directly, which is what `setPath("")` does.
- Null elements of the destination list and destinations whose name is null are not modelled: the list is a sequence of non-null objects and a name is a string. In Java, a null element makes `setSyncDestinations` throw after it has already replaced the list and put the names of the earlier destinations. A null name makes `changeSyncDestinationState` throw after the `replace` and after updating the earlier destinations. In both cases the map and the list are left out of step.
- Composing the composite group, access checks, pagination and subject normalisation belong to services outside this entity. They are not part of this model.
