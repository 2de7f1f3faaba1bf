/** Saved designs kept in the browser's local storage: a name-keyed list
    of designs under one key and the autosaved design under another. The
    storage is a map from key to stored value; JSON text is abstracted to
    the value it encodes, or to `Unparsable` when parsing it throws. The
    clock is a parameter. */
module Persistence {
  import opened Common
  import opened Types

  const StorageKey: string := "product-designer-state"
  const ListKey: string := StorageKey + "-list"
  const AutoSaveKey: string := StorageKey + "-autosave"

  datatype Entry = Entry(name: string, state: DesignState, timestamp: int)

  /** What a storage key can hold: a saved-design list, one design state, or
      text that does not parse. */
  datatype Stored = ListValue(entries: seq<Entry>) | StateValue(state: DesignState) | Unparsable

  type Storage = map<string, Stored>

  /** The hook's state: the in-memory list and the storage it writes to. */
  datatype Persisted = Persisted(designs: seq<Entry>, storage: Storage)

  /** The list read on mount: the stored list, or nothing when the key is
      absent or does not parse. */
  function Mount(storage: Storage): (p: Persisted)
    ensures p.storage == storage
    ensures ListKey in storage && storage[ListKey].ListValue? ==> p.designs == storage[ListKey].entries
    ensures ListKey !in storage || !storage[ListKey].ListValue? ==> p.designs == []
  {
    var designs := if ListKey in storage && storage[ListKey].ListValue? then storage[ListKey].entries else [];
    Persisted(designs, storage)
  }

  /** `findIndex(d => d.name === name)`. */
  function FindName(designs: seq<Entry>, name: string): (k: Option<nat>)
    ensures k.Some? ==> k.value < |designs| && designs[k.value].name == name
    ensures k.Some? ==> forall j :: 0 <= j < k.value ==> designs[j].name != name
    ensures k.None? ==> forall j :: 0 <= j < |designs| ==> designs[j].name != name
  {
    if designs == [] then None
    else if designs[0].name == name then Some(0)
    else
      var k := FindName(designs[1..], name);
      if k.None? then None else Some(k.value + 1)
  }

  /** The stored list mirrors the in-memory one. */
  predicate Synced(p: Persisted) {
    ListKey in p.storage && p.storage[ListKey] == ListValue(p.designs)
  }

  /** `saveDesign`: a design of the same name is replaced where it stands,
      otherwise the new one is appended; the list is then written back. */
  function Save(p: Persisted, name: string, elements: seq<DesignElement>, productId: string, now: int)
    : (r: Persisted)
    ensures Synced(r)
    ensures r.storage == p.storage[ListKey := ListValue(r.designs)]
    ensures var entry := Entry(name, DesignState(elements, productId), now);
            match FindName(p.designs, name)
            case Some(k) => |r.designs| == |p.designs| && r.designs[k] == entry
                            && forall j :: 0 <= j < |p.designs| && j != k ==> r.designs[j] == p.designs[j]
            case None => r.designs == p.designs + [entry]
  {
    var entry := Entry(name, DesignState(elements, productId), now);
    var updated := match FindName(p.designs, name)
                   case Some(k) => p.designs[k := entry]
                   case None => p.designs + [entry];
    Persisted(updated, p.storage[ListKey := ListValue(updated)])
  }

  /** `loadDesign`: the state of the first design with the name. */
  function Load(p: Persisted, name: string): (r: Option<DesignState>)
    ensures r.None? <==> forall j :: 0 <= j < |p.designs| ==> p.designs[j].name != name
    ensures r.Some? ==> exists k :: 0 <= k < |p.designs| && p.designs[k].name == name
                          && p.designs[k].state == r.value
                          && forall j :: 0 <= j < k ==> p.designs[j].name != name
  {
    match FindName(p.designs, name)
    case Some(k) => Some(p.designs[k].state)
    case None => None
  }

  /** `filter(d => d.name !== name)`. */
  function RemoveName(designs: seq<Entry>, name: string): (r: seq<Entry>)
    ensures |r| <= |designs|
    ensures forall e :: e in r <==> e in designs && e.name != name
  {
    if designs == [] then []
    else if designs[0].name == name then RemoveName(designs[1..], name)
    else [designs[0]] + RemoveName(designs[1..], name)
  }

  /** `deleteDesign`: every design of the name goes, and the list is
      written back. */
  function Delete(p: Persisted, name: string): (r: Persisted)
    ensures Synced(r)
    ensures r.designs == RemoveName(p.designs, name)
    ensures r.storage == p.storage[ListKey := ListValue(r.designs)]
  {
    var updated := RemoveName(p.designs, name);
    Persisted(updated, p.storage[ListKey := ListValue(updated)])
  }

  /** Loading a name right after saving it gives the saved state. */
  lemma LoadAfterSave(p: Persisted, name: string, elements: seq<DesignElement>, productId: string, now: int)
    ensures Load(Save(p, name, elements, productId, now), name) == Some(DesignState(elements, productId))
  {
    var r := Save(p, name, elements, productId, now);
    match FindName(p.designs, name)
    case Some(k) =>
      assert FindName(r.designs, name) == Some(k) by {
        FindNameOfPrefix(p.designs, r.designs, name, k);
      }
    case None =>
      assert FindName(r.designs, name) == Some(|p.designs|) by {
        FindNameOfPrefix(p.designs, r.designs, name, |p.designs|);
      }
  }

  /** Two lists that agree before position `k`, where the second has the
      name, find it at the same first position. */
  lemma {:induction false} FindNameOfPrefix(a: seq<Entry>, b: seq<Entry>, name: string, k: nat)
    requires k < |b| && b[k].name == name && k <= |a|
    requires forall j :: 0 <= j < k ==> a[j] == b[j] && a[j].name != name
    ensures FindName(b, name) == Some(k)
    decreases k
  {
    if k > 0 {
      FindNameOfPrefix(a[1..], b[1..], name, k - 1);
    }
  }

  /** After a delete the name is gone. */
  lemma LoadAfterDelete(p: Persisted, name: string)
    ensures Load(Delete(p, name), name).None?
  {
    var r := Delete(p, name);
    forall j | 0 <= j < |r.designs| ensures r.designs[j].name != name {
      assert r.designs[j] in r.designs;
    }
  }

  /** Each name occurs at most once. */
  predicate UniqueNames(designs: seq<Entry>) {
    forall i, j :: 0 <= i < j < |designs| ==> designs[i].name != designs[j].name
  }

  /** Saving and deleting keep names unique. */
  lemma SaveKeepsNamesUnique(p: Persisted, name: string, elements: seq<DesignElement>, productId: string, now: int)
    requires UniqueNames(p.designs)
    ensures UniqueNames(Save(p, name, elements, productId, now).designs)
  {
  }

  lemma {:induction false} DeleteKeepsNamesUnique(designs: seq<Entry>, name: string)
    requires UniqueNames(designs)
    ensures UniqueNames(RemoveName(designs, name))
  {
    if designs != [] {
      DeleteKeepsNamesUnique(designs[1..], name);
      var rest := RemoveName(designs[1..], name);
      if designs[0].name != name {
        forall j | 0 <= j < |rest| ensures rest[j].name != designs[0].name {
          assert rest[j] in designs[1..];
        }
      }
    }
  }

  /** Deleting keeps the other designs in their order: it distributes over
      concatenation. */
  lemma {:induction false} RemoveNameAppend(a: seq<Entry>, b: seq<Entry>, name: string)
    ensures RemoveName(a + b, name) == RemoveName(a, name) + RemoveName(b, name)
  {
    if a == [] {
      assert a + b == b;
    } else {
      assert (a + b)[1..] == a[1..] + b;
      RemoveNameAppend(a[1..], b, name);
    }
  }

  /** Reloading the page after a save or a delete reads back the same
      list. */
  lemma MountAfterWrite(p: Persisted, name: string, elements: seq<DesignElement>, productId: string, now: int)
    ensures Mount(Save(p, name, elements, productId, now).storage).designs == Save(p, name, elements, productId, now).designs
    ensures Mount(Delete(p, name).storage).designs == Delete(p, name).designs
  {
  }

  /** `autoSave`: the current design under the autosave key; the list is
      untouched. */
  function AutoSave(p: Persisted, elements: seq<DesignElement>, productId: string): (r: Persisted)
    ensures r.designs == p.designs
    ensures AutoSaveKey in r.storage && r.storage[AutoSaveKey] == StateValue(DesignState(elements, productId))
    ensures forall k :: k in p.storage && k != AutoSaveKey ==> k in r.storage && r.storage[k] == p.storage[k]
  {
    p.(storage := p.storage[AutoSaveKey := StateValue(DesignState(elements, productId))])
  }

  /** `loadAutoSave`: the autosaved state, or nothing when the key is
      absent or its text does not parse. */
  function LoadAutoSave(storage: Storage): (r: Option<DesignState>)
    ensures AutoSaveKey !in storage ==> r.None?
    ensures AutoSaveKey in storage && storage[AutoSaveKey].StateValue? ==> r == Some(storage[AutoSaveKey].state)
    ensures AutoSaveKey in storage && storage[AutoSaveKey].Unparsable? ==> r.None?
  {
    if AutoSaveKey in storage && storage[AutoSaveKey].StateValue? then Some(storage[AutoSaveKey].state) else None
  }

  /** The last autosave is what comes back; saving to the list in between
      does not disturb it. */
  lemma AutoSaveRoundTrip(p: Persisted, elements: seq<DesignElement>, productId: string,
                          name: string, other: seq<DesignElement>, now: int)
    ensures LoadAutoSave(AutoSave(p, elements, productId).storage) == Some(DesignState(elements, productId))
    ensures var q := Save(AutoSave(p, elements, productId), name, other, productId, now);
            LoadAutoSave(q.storage) == Some(DesignState(elements, productId))
  {
    assert ListKey != AutoSaveKey by {
      assert ListKey[|StorageKey| + 1] == 'l';
      assert AutoSaveKey[|StorageKey| + 1] == 'a';
    }
  }
}
