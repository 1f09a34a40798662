/**
 * FileStorage (models/engine/file_storage.py): one table from the key
 * `"<ClassName>.<id>"` to an instance, persisted to `file.json` as one JSON
 * object of key to flattened record. The file is modelled by its content:
 * `None` when it does not exist, otherwise an ordered record map.
 */
module Storage {
  import opened Wrappers
  import opened Dicts
  import opened Models

  /** The content of `file.json`: key to flattened record, in file order. */
  type JsonFile = Dict<Record>

  /** Every key is the class name and id of the instance stored under it. */
  ghost predicate KeyShaped(d: Dict<Obj>) {
    forall k :: k in d.vals ==> k == KeyOf(d.vals[k].tag, d.vals[k].id)
  }

  /** The record map `save` writes for a table. */
  function Flatten(d: Dict<Obj>): (f: JsonFile)
    ensures d.Valid() ==> f.Valid()
  {
    Dict(d.keys, map k | k in d.vals :: ToDict(d.vals[k]))
  }

  /** The records `save` has built after its first `i` iterations. */
  ghost function FlatPrefix(keys: seq<string>, entries: map<string, Obj>, i: nat): map<string, Record>
    requires i <= |keys| && forall k :: k in keys ==> k in entries
  {
    map k | k in keys[..i] :: ToDict(entries[k])
  }

  /** One more iteration of `save` adds the next key, which is new, with its flattened record. */
  lemma FlatPrefixStep(keys: seq<string>, entries: map<string, Obj>, i: nat)
    requires Dict(keys, entries).Valid() && i < |keys|
    ensures keys[i] !in FlatPrefix(keys, entries, i)
    ensures keys[..i + 1] == keys[..i] + [keys[i]]
    ensures FlatPrefix(keys, entries, i + 1) == FlatPrefix(keys, entries, i)[keys[i] := ToDict(entries[keys[i]])]
  {
    assert keys[..i + 1] == keys[..i] + [keys[i]];
  }

  /** After the last iteration `save` has built exactly the flattened table. */
  lemma FlatPrefixAll(keys: seq<string>, entries: map<string, Obj>)
    requires Dict(keys, entries).Valid()
    ensures keys[..|keys|] == keys
    ensures FlatPrefix(keys, entries, |keys|) == Flatten(Dict(keys, entries)).vals
  {
    assert keys[..|keys|] == keys;
  }

  /** What `reload` leaves behind: the table, and the error that stopped it, if any. */
  datatype Loaded = Loaded(table: Dict<Obj>, error: Option<LoadError>)

  /**
   * Insert the records at keys `ks` into `acc` one by one, under the file's
   * own keys; the first record that cannot be rebuilt stops the load and the
   * records before it stay inserted.
   */
  function Load(acc: Dict<Obj>, ks: seq<string>, recs: map<string, Record>, known: set<string>): (r: Loaded)
    requires forall k :: k in ks ==> k in recs
    ensures acc.Valid() ==> r.table.Valid()
    ensures forall k :: k in acc.vals ==> k in r.table.vals
    decreases |ks|
  {
    if ks == [] then Loaded(acc, None)
    else match Rebuild(recs[ks[0]], known)
      case Failure(e) => Loaded(acc, Some(e))
      case Success(o) => Load(acc.Set(ks[0], o), ks[1..], recs, known)
  }

  /**
   * The class names a `"__class__"` field can resolve to as file_storage.py
   * is written: `eval` sees only the names that module imports, and the
   * only model class among them is BaseModel.
   */
  const NamesInScope: set<string> := {"BaseModel"}

  /** Every instance is of a class in `known` and keeps its id and class name outside its attributes. */
  ghost predicate Persistable(d: Dict<Obj>, known: set<string>) {
    forall k :: k in d.vals ==> WellFormed(d.vals[k]) && d.vals[k].tag in known
  }

  /**
   * `new(o)` writes exactly the entry at `o`'s class name and id, leaves every
   * other entry as it was, and keeps every key equal to its instance's class name and id.
   */
  lemma NewKeepsKeyShape(d: Dict<Obj>, o: Obj)
    requires d.Valid() && KeyShaped(d)
    ensures var d' := d.Set(KeyOf(o.tag, o.id), o);
      && d'.Valid() && KeyShaped(d')
      && KeyOf(o.tag, o.id) in d'.vals && d'.vals[KeyOf(o.tag, o.id)] == o
      && (forall k :: k != KeyOf(o.tag, o.id) ==> (k in d'.vals <==> k in d.vals))
      && (forall k :: k in d.vals && k != KeyOf(o.tag, o.id) ==> d'.vals[k] == d.vals[k])
  {
  }

  /**
   * A load that meets no bad record inserts every record, rebuilt, under the
   * file's own key, overwrites entries with the same key and keeps all others.
   */
  lemma {:induction false} LoadMerges(acc: Dict<Obj>, ks: seq<string>, recs: map<string, Record>, known: set<string>)
    requires acc.Valid() && forall k :: k in ks ==> k in recs
    ensures var r := Load(acc, ks, recs, known);
      && r.table.Valid()
      && (r.error.None? ==>
        && (forall k :: k in r.table.vals <==> k in acc.vals || k in ks)
        && (forall k :: k in ks ==> Rebuild(recs[k], known) == Success(r.table.vals[k]))
        && (forall k :: k in acc.vals && k !in ks ==> r.table.vals[k] == acc.vals[k]))
    decreases |ks|
  {
    if ks != [] {
      match Rebuild(recs[ks[0]], known)
      case Failure(e) =>
      case Success(o) =>
        LoadMerges(acc.Set(ks[0], o), ks[1..], recs, known);
        assert forall k :: k in ks <==> k == ks[0] || k in ks[1..];
    }
  }

  /**
   * A load that meets a bad record at position `j`, after `j` good ones,
   * stops there with that record's error, and the table keeps exactly what
   * loading the first `j` records inserted.
   */
  lemma {:induction false} LoadStopsAtBadRecord(acc: Dict<Obj>, ks: seq<string>, recs: map<string, Record>, known: set<string>, j: nat)
    requires (forall k :: k in ks ==> k in recs) && j < |ks|
    requires forall i :: 0 <= i < j ==> Rebuild(recs[ks[i]], known).Success?
    requires Rebuild(recs[ks[j]], known).Failure?
    ensures forall k :: k in ks[..j] ==> k in recs
    ensures Load(acc, ks[..j], recs, known).error.None?
    ensures Load(acc, ks, recs, known) ==
      Loaded(Load(acc, ks[..j], recs, known).table, Some(Rebuild(recs[ks[j]], known).error))
    decreases j
  {
    if j == 0 {
      assert ks[..0] == [];
    } else {
      assert Rebuild(recs[ks[0]], known).Success?;
      var o := Rebuild(recs[ks[0]], known).value;
      assert ks[..j][0] == ks[0] && ks[..j][1..] == ks[1..][..j - 1];
      assert forall i :: 0 <= i < j - 1 ==> ks[1..][i] == ks[i + 1];
      LoadStopsAtBadRecord(acc.Set(ks[0], o), ks[1..], recs, known, j - 1);
    }
  }

  /** The first `i` entries of a table, in order. */
  ghost function Prefix(d: Dict<Obj>, i: nat): Dict<Obj>
    requires d.Valid() && i <= |d.keys|
  {
    Dict(d.keys[..i], map k | k in d.keys[..i] :: d.vals[k])
  }

  /** Adding the next entry to the first `i` entries gives the first `i + 1`. */
  lemma PrefixStep(d: Dict<Obj>, i: nat)
    requires d.Valid() && i < |d.keys|
    ensures d.keys[i] in d.vals
    ensures Prefix(d, i).Set(d.keys[i], d.vals[d.keys[i]]) == Prefix(d, i + 1)
  {
    var k := d.keys[i];
    assert k !in d.keys[..i] by {
      forall j | 0 <= j < i ensures d.keys[..i][j] != k {
        assert d.keys[..i][j] == d.keys[j];
      }
    }
    assert d.keys[..i + 1] == d.keys[..i] + [k];
  }

  /** All the entries of a table are the table. */
  lemma PrefixAll(d: Dict<Obj>)
    requires d.Valid()
    ensures Prefix(d, |d.keys|) == d
  {
    assert d.keys[..|d.keys|] == d.keys;
  }

  /** Loading the saved records of the entries from `i` on into the first `i` entries rebuilds the table. */
  lemma {:induction false} LoadRest(d: Dict<Obj>, i: nat, known: set<string>)
    requires d.Valid() && Persistable(d, known) && i <= |d.keys|
    ensures forall k :: k in d.keys[i..] ==> k in Flatten(d).vals
    ensures Load(Prefix(d, i), d.keys[i..], Flatten(d).vals, known) == Loaded(d, None)
    decreases |d.keys| - i
  {
    if i == |d.keys| {
      PrefixAll(d);
    } else {
      var k := d.keys[i];
      RebuildToDict(d.vals[k], known);
      PrefixStep(d, i);
      assert d.keys[i..][0] == k && d.keys[i..][1..] == d.keys[i + 1..];
      LoadRest(d, i + 1, known);
    }
  }

  /**
   * Saving a table of well-formed instances of registered classes and
   * reloading the file into an empty store gives back the same table: the
   * same keys in the same order, each instance rebuilt from its record.
   */
  lemma SaveReloadRoundTrip(d: Dict<Obj>)
    requires d.Valid() && Persistable(d, Registry)
    ensures Load(Empty(), Flatten(d).keys, Flatten(d).vals, Registry) == Loaded(d, None)
  {
    LoadRest(d, 0, Registry);
    assert d.keys[0..] == d.keys;
    assert Prefix(d, 0) == Empty();
  }

  /**
   * As written, a saved User cannot be reloaded: its class name does not
   * resolve among the names file_storage.py imports.
   */
  lemma ReloadAsWrittenRejectsUser(id: string)
    ensures var d := Empty<Obj>().Set(KeyOf("User", id), Obj("User", id, map[]));
      && d.Valid() && Persistable(d, Registry)
      && Load(Empty(), Flatten(d).keys, Flatten(d).vals, NamesInScope) == Loaded(Empty(), Some(UnknownClass("User")))
  {
    var d := Empty<Obj>().Set(KeyOf("User", id), Obj("User", id, map[]));
    var f := Flatten(d);
    assert f.keys == [KeyOf("User", id)];
    assert f.vals[KeyOf("User", id)] == ToDict(Obj("User", id, map[]));
  }

  /** The Python dict object that holds the store's entries. */
  class Table {
    var keys: seq<string>
    var entries: map<string, Obj>

    function Contents(): Dict<Obj>
      reads this
    {
      Dict(keys, entries)
    }

    ghost predicate Valid()
      reads this
    {
      Contents().Valid()
    }

    constructor()
      ensures Valid() && Contents() == Empty()
    {
      keys, entries := [], map[];
    }

    /** `table[k] = o` */
    method Put(k: string, o: Obj)
      requires Valid()
      modifies this
      ensures Valid() && Contents() == old(Contents()).Set(k, o)
    {
      if k !in entries {
        keys := keys + [k];
      }
      entries := entries[k := o];
    }

    /** `del table[k]` */
    method Delete(k: string)
      requires Valid() && k in entries
      modifies this
      ensures Valid() && Contents() == old(Contents()).Remove(k)
    {
      keys := Without(keys, k);
      entries := entries - {k};
    }
  }

  class FileStorage {
    /** The class-level `__objects` dict: one object for the store's whole life. */
    const table: Table
    /** The content of `file.json`, or `None` when the file does not exist. */
    var file: Option<JsonFile>

    ghost predicate Valid()
      reads this, table
    {
      table.Valid() && (file.Some? ==> file.value.Valid())
    }

    constructor(onDisk: Option<JsonFile>)
      requires onDisk.Some? ==> onDisk.value.Valid()
      ensures Valid() && fresh(table)
      ensures table.Contents() == Empty() && file == onDisk
    {
      table := new Table();
      file := onDisk;
    }

    /** `all()`: the live table itself, not a copy. */
    method All() returns (t: Table)
      ensures t == table
    {
      t := table;
    }

    /** `new(obj)`: store `obj` under its class name and id; `None` is ignored. */
    method New(obj: Option<Obj>)
      requires Valid()
      modifies table
      ensures Valid()
      ensures obj.None? ==> table.Contents() == old(table.Contents())
      ensures obj.Some? ==>
        table.Contents() == old(table.Contents()).Set(KeyOf(obj.value.tag, obj.value.id), obj.value)
    {
      if obj.Some? {
        var o := obj.value;
        table.Put(KeyOf(o.tag, o.id), o);
      }
    }

    /** `save()`: write every entry, flattened, under its key and in table order. */
    method Save()
      requires Valid()
      modifies this`file
      ensures Valid()
      ensures file == Some(Flatten(table.Contents()))
      ensures file.value.keys == table.keys && file.value.vals.Keys == table.entries.Keys
      ensures forall k :: k in table.entries ==> file.value.vals[k] == ToDict(table.entries[k])
    {
      var keys, entries := table.keys, table.entries;
      var newDict: JsonFile := Empty();
      var i := 0;
      while i < |keys|
        invariant 0 <= i <= |keys|
        invariant newDict.keys == keys[..i]
        invariant newDict.vals == FlatPrefix(keys, entries, i)
      {
        var key := keys[i];
        FlatPrefixStep(keys, entries, i);
        newDict := newDict.Set(key, ToDict(entries[key]));
        i := i + 1;
      }
      FlatPrefixAll(keys, entries);
      file := Some(newDict);
    }

    /**
     * `reload()`: nothing when the file does not exist; otherwise insert
     * every record, rebuilt, under the file's key, keeping the entries the
     * file does not mention. A record that cannot be rebuilt stops it.
     */
    method Reload() returns (err: Option<LoadError>)
      requires Valid()
      modifies table
      ensures Valid()
      ensures file.None? ==> err.None? && table.Contents() == old(table.Contents())
      ensures file.Some? ==>
        Loaded(table.Contents(), err) == Load(old(table.Contents()), file.value.keys, file.value.vals, Registry)
    {
      if file.None? {
        return None;
      }
      var f := file.value;
      var i := 0;
      while i < |f.keys|
        invariant 0 <= i <= |f.keys|
        invariant table.Valid()
        invariant Load(table.Contents(), f.keys[i..], f.vals, Registry) == Load(old(table.Contents()), f.keys, f.vals, Registry)
      {
        var key := f.keys[i];
        var value := Rebuild(f.vals[key], Registry);
        if value.Failure? {
          return Some(value.error);
        }
        table.Put(key, value.value);
        i := i + 1;
      }
      return None;
    }
  }
}
