/**
 * HBNBCommand (console.py): each command takes its argument line, already
 * split into tokens, runs a fixed chain of checks that stops at the first
 * failure with one fixed diagnostic, and otherwise performs one store
 * operation. Printed lines are returned instead of printed.
 */
module Console {
  import opened Wrappers
  import opened Dicts
  import opened Models
  import opened Storage

  /** The diagnostics, in the order the checks that report them run. */
  datatype Diagnostic =
    | ClassNameMissing
    | ClassDoesntExist
    | InstanceIdMissing
    | NoInstanceFound
    | AttributeNameMissing
    | ValueMissing

  function Message(d: Diagnostic): (m: string) {
    match d
    case ClassNameMissing => "** class name missing **"
    case ClassDoesntExist => "** class doesn't exist **"
    case InstanceIdMissing => "** instance id missing **"
    case NoInstanceFound => "** no instance found **"
    case AttributeNameMissing => "** attribute name missing **"
    case ValueMissing => "** value missing **"
  }

  /** A printed line: a plain text, or the printed form of an instance. */
  datatype Line = Text(s: string) | Shown(o: Obj)

  /** The position of a diagnostic's check in the longest chain, update's. */
  function Rank(d: Diagnostic): (r: nat) {
    match d
    case ClassNameMissing => 0
    case ClassDoesntExist => 1
    case InstanceIdMissing => 2
    case NoInstanceFound => 3
    case AttributeNameMissing => 4
    case ValueMissing => 5
  }

  /** The condition a diagnostic reports holds of tokens `t` and stored keys `keys`. */
  predicate Fails(d: Diagnostic, t: seq<string>, keys: set<string>) {
    match d
    case ClassNameMissing => |t| == 0
    case ClassDoesntExist => |t| >= 1 && t[0] !in Registry
    case InstanceIdMissing => |t| < 2
    case NoInstanceFound => |t| >= 2 && KeyOf(t[0], t[1]) !in keys
    case AttributeNameMissing => |t| < 3
    case ValueMissing => |t| < 4
  }

  /** `d` is what a chain of the first `n` checks reports: it fails and no earlier check does. */
  ghost predicate ReportedBy(d: Diagnostic, t: seq<string>, keys: set<string>, n: nat) {
    Rank(d) < n && Fails(d, t, keys) && forall e :: Rank(e) < Rank(d) ==> !Fails(e, t, keys)
  }

  /** None of the first `n` checks fails. */
  ghost predicate PassesAll(t: seq<string>, keys: set<string>, n: nat) {
    forall e :: Rank(e) < n ==> !Fails(e, t, keys)
  }

  /** The outcome of a chain of checks: one diagnostic, or what to act on. */
  datatype Verdict<A> = Reject(diagnostic: Diagnostic) | Accept(action: A)

  /** What `update` acts on: the key, the attribute name and the new value. */
  datatype Update = Update(key: string, name: string, value: string)

  /** The checks of `create`: a class name is given and registered. */
  function CreateCheck(t: seq<string>): (v: Verdict<string>)
    ensures v.Reject? ==> ReportedBy(v.diagnostic, t, {}, 2)
    ensures v.Accept? <==> PassesAll(t, {}, 2)
    ensures v.Accept? ==> |t| >= 1 && v.action == t[0]
  {
    if |t| == 0 then Reject(ClassNameMissing)
    else if t[0] !in Registry then Reject(ClassDoesntExist)
    else Accept(t[0])
  }

  /** The checks of `show` and `destroy`: class name, then id, then an instance at that key. */
  function LocateCheck(t: seq<string>, keys: set<string>): (v: Verdict<string>)
    ensures v.Reject? ==> ReportedBy(v.diagnostic, t, keys, 4)
    ensures v.Accept? <==> PassesAll(t, keys, 4)
    ensures v.Accept? ==> |t| >= 2 && v.action == KeyOf(t[0], t[1]) && v.action in keys
  {
    if |t| == 0 then Reject(ClassNameMissing)
    else if t[0] !in Registry then Reject(ClassDoesntExist)
    else if |t| == 1 then Reject(InstanceIdMissing)
    else
      var nameId := KeyOf(t[0], t[1]);
      if nameId in keys then Accept(nameId) else Reject(NoInstanceFound)
  }

  /** The checks of `update`: all six, in order; extra tokens are ignored. */
  function UpdateCheck(t: seq<string>, keys: set<string>): (v: Verdict<Update>)
    ensures v.Reject? ==> ReportedBy(v.diagnostic, t, keys, 6)
    ensures v.Accept? <==> PassesAll(t, keys, 6)
    ensures v.Accept? ==> |t| >= 4 && v.action == Update(KeyOf(t[0], t[1]), t[2], t[3]) && v.action.key in keys
  {
    if |t| == 0 then Reject(ClassNameMissing)
    else if t[0] !in Registry then Reject(ClassDoesntExist)
    else if |t| == 1 then Reject(InstanceIdMissing)
    else if KeyOf(t[0], t[1]) !in keys then Reject(NoInstanceFound)
    else if |t| == 2 then Reject(AttributeNameMissing)
    else if |t| == 3 then Reject(ValueMissing)
    else Accept(Update(KeyOf(t[0], t[1]), t[2], t[3]))
  }

  /** The checks of `all`: no class name lists everything, a registered one filters by it. */
  function AllCheck(t: seq<string>): (v: Verdict<Option<string>>)
    ensures v.Reject? <==> Fails(ClassDoesntExist, t, {})
    ensures v.Reject? ==> v.diagnostic == ClassDoesntExist
    ensures v.Accept? ==> (v.action.None? <==> t == []) && (v.action.Some? ==> v.action.value == t[0])
  {
    if t == [] then Accept(None)
    else if t[0] in Registry then Accept(Some(t[0]))
    else Reject(ClassDoesntExist)
  }

  /** `name` occurs in `key` starting at position `i`. */
  predicate OccursAt(key: string, name: string, i: int) {
    0 <= i && i + |name| <= |key| && key[i..i + |name|] == name
  }

  /** Python's `name in key` on strings. */
  function Contains(key: string, name: string): (b: bool)
    ensures b ==> |name| <= |key|
    ensures |name| <= |key| && key[..|name|] == name ==> b
    decreases |key|
  {
    if |name| > |key| then false
    else if key[..|name|] == name then true
    else Contains(key[1..], name)
  }

  lemma {:induction false} ContainsIffOccurs(key: string, name: string)
    ensures Contains(key, name) <==> exists i :: OccursAt(key, name, i)
    decreases |key|
  {
    if |name| > |key| {
    } else if key[..|name|] == name {
      assert OccursAt(key, name, 0);
    } else {
      ContainsIffOccurs(key[1..], name);
      if Contains(key[1..], name) {
        var i :| OccursAt(key[1..], name, i);
        assert key[i + 1..i + 1 + |name|] == key[1..][i..i + |name|];
        assert OccursAt(key, name, i + 1);
      }
      forall i | OccursAt(key, name, i) ensures OccursAt(key[1..], name, i - 1) {
        assert key[1..][i - 1..i - 1 + |name|] == key[i..i + |name|];
      }
    }
  }

  /** Whether `all` prints the entry at `key`. */
  predicate Matches(key: string, filter: Option<string>) {
    filter.None? || Contains(key, filter.value)
  }

  /** The keys among `ks` that `all` prints, in their order. */
  function Select(ks: seq<string>, filter: Option<string>): (r: seq<string>)
    ensures forall k :: k in r ==> k in ks
    decreases |ks|
  {
    if ks == [] then []
    else
      var init := Select(ks[..|ks| - 1], filter);
      if Matches(ks[|ks| - 1], filter) then init + [ks[|ks| - 1]] else init
  }

  /** Looking at one more key extends the selection by that key when it matches. */
  lemma SelectStep(ks: seq<string>, i: nat, filter: Option<string>)
    requires i < |ks|
    ensures Select(ks[..i + 1], filter) ==
      Select(ks[..i], filter) + (if Matches(ks[i], filter) then [ks[i]] else [])
  {
    assert ks[..i + 1][..i] == ks[..i];
  }

  /** The printed forms of the instances at `ks`, one line each, in order. */
  function Lines(ks: seq<string>, vals: map<string, Obj>): (r: seq<Line>)
    requires forall k :: k in ks ==> k in vals
    ensures |r| == |ks| && forall i :: 0 <= i < |ks| ==> r[i] == Shown(vals[ks[i]])
    decreases |ks|
  {
    if ks == [] then [] else Lines(ks[..|ks| - 1], vals) + [Shown(vals[ks[|ks| - 1]])]
  }

  /**
   * `all <C>` lists exactly the entries whose key contains `C`, each once,
   * in table order; without a class name every key is listed.
   */
  lemma SelectExact(ks: seq<string>, filter: Option<string>)
    ensures forall k :: k in Select(ks, filter) <==> k in ks && Matches(k, filter)
    ensures Distinct(ks) ==> Distinct(Select(ks, filter))
    ensures filter.None? ==> Select(ks, filter) == ks
  {
    SelectMembers(ks, filter);
    if Distinct(ks) {
      SelectDistinct(ks, filter);
    }
    if filter.None? {
      SelectEverything(ks);
    }
  }

  lemma {:induction false} SelectMembers(ks: seq<string>, filter: Option<string>)
    ensures forall k :: k in Select(ks, filter) <==> k in ks && Matches(k, filter)
    decreases |ks|
  {
    if ks != [] {
      var init := ks[..|ks| - 1];
      SelectMembers(init, filter);
      assert ks == init + [ks[|ks| - 1]];
    }
  }

  lemma {:induction false} SelectDistinct(ks: seq<string>, filter: Option<string>)
    requires Distinct(ks)
    ensures Distinct(Select(ks, filter))
    decreases |ks|
  {
    if ks != [] {
      var init := ks[..|ks| - 1];
      var last := ks[|ks| - 1];
      assert Distinct(init) by {
        forall i, j | 0 <= i < j < |init| ensures init[i] != init[j] {
          assert init[i] == ks[i] && init[j] == ks[j];
        }
      }
      assert last !in init by {
        forall j | 0 <= j < |init| ensures init[j] != last {
          assert init[j] == ks[j];
        }
      }
      SelectDistinct(init, filter);
      DistinctSnoc(Select(init, filter), last);
    }
  }

  /** Appending an element that is not yet there keeps a sequence duplicate-free. */
  lemma DistinctSnoc(s: seq<string>, x: string)
    requires Distinct(s) && x !in s
    ensures Distinct(s + [x])
  {
    var r := s + [x];
    forall i, j | 0 <= i < j < |r| ensures r[i] != r[j] {
      assert r[i] == s[i];
    }
  }

  lemma {:induction false} SelectEverything(ks: seq<string>)
    ensures Select(ks, None) == ks
    decreases |ks|
  {
    if ks != [] {
      SelectEverything(ks[..|ks| - 1]);
      assert ks == ks[..|ks| - 1] + [ks[|ks| - 1]];
    }
  }

  /**
   * `all <C>` lists every instance of class `C`, since its key begins with `C`.
   */
  lemma AllListsEveryInstanceOfClass(d: Dict<Obj>, c: string, k: string)
    requires d.Valid() && KeyShaped(d) && k in d.vals && d.vals[k].tag == c
    ensures k in Select(d.keys, Some(c))
  {
    assert OccursAt(k, c, 0);
    ContainsIffOccurs(k, c);
    SelectExact(d.keys, Some(c));
  }

  /**
   * The filter is a substring test on the whole key, so `all User` also
   * lists a Place whose id contains "User".
   */
  lemma AllFilterMatchesIds()
    ensures Select(["Place.User-1"], Some("User")) == ["Place.User-1"]
  {
    assert OccursAt("Place.User-1", "User", 6);
    ContainsIffOccurs("Place.User-1", "User");
    assert ["Place.User-1"][..0] == [];
  }

  /** With no tokens, every command reports only that the class name is missing. */
  lemma NoTokensReportsClassNameMissing(keys: set<string>)
    ensures CreateCheck([]) == Reject(ClassNameMissing)
    ensures LocateCheck([], keys) == Reject(ClassNameMissing)
    ensures UpdateCheck([], keys) == Reject(ClassNameMissing)
  {
  }

  /** An unregistered class name is reported before anything about ids, and `all` reports it too. */
  lemma UnknownClassReportedFirst(t: seq<string>, keys: set<string>)
    requires |t| >= 1 && t[0] !in Registry
    ensures CreateCheck(t) == Reject(ClassDoesntExist)
    ensures LocateCheck(t, keys) == Reject(ClassDoesntExist)
    ensures UpdateCheck(t, keys) == Reject(ClassDoesntExist)
    ensures AllCheck(t) == Reject(ClassDoesntExist)
  {
  }

  /** After `create C` with id `id`, `show C id` finds the new instance. */
  lemma ShowFindsCreated(c: string, id: string, d: Dict<Obj>, initial: Attrs)
    requires c in Registry
    ensures var d' := d.Set(KeyOf(c, id), Obj(c, id, initial));
      LocateCheck([c, id], d'.vals.Keys) == Accept(KeyOf(c, id)) && d'.vals[KeyOf(c, id)].id == id
  {
  }

  /** After `destroy C id`, `show C id` finds no instance. */
  lemma ShowAfterDestroy(t: seq<string>, d: Dict<Obj>)
    requires |t| >= 2 && t[0] in Registry
    ensures LocateCheck(t, d.Remove(KeyOf(t[0], t[1])).vals.Keys) == Reject(NoInstanceFound)
  {
  }

  /**
   * `update` keeps every key equal to its instance's class name and id
   * exactly when it does not change the id: `update C x id y` with `y != x`
   * leaves the instance under `C.x` with id `y`.
   */
  lemma UpdateKeyShapeIff(d: Dict<Obj>, u: Update)
    requires d.Valid() && KeyShaped(d) && u.key in d.vals
    ensures KeyShaped(d.Set(u.key, SetAttr(d.vals[u.key], u.name, u.value)))
      <==> u.name != "id" || u.value == d.vals[u.key].id
  {
    var o := d.vals[u.key];
    var d' := d.Set(u.key, SetAttr(o, u.name, u.value));
    if u.name == "id" && u.value != o.id {
      assert d'.vals[u.key] == o.(id := u.value);
      assert u.key == KeyOf(o.tag, o.id);
      KeyOfInjective(o.tag, o.id, u.value);
    }
  }

  /**
   * `update` keeps instances reloadable unless it sets `__class__`; with
   * CreateKeepsPersistable and DestroyKeepsPersistable, a table built by
   * `create`, `destroy` and such updates still survives a save and a reload.
   */
  lemma UpdateKeepsPersistable(d: Dict<Obj>, u: Update)
    requires d.Valid() && Persistable(d, Registry) && u.key in d.vals && u.name != "__class__"
    ensures Persistable(d.Set(u.key, SetAttr(d.vals[u.key], u.name, u.value)), Registry)
  {
  }

  /** `create` stores a well-formed instance of a registered class, so every instance stays reloadable. */
  lemma CreateKeepsPersistable(d: Dict<Obj>, c: string, id: string, initial: Attrs)
    requires Persistable(d, Registry) && c in Registry && "id" !in initial && "__class__" !in initial
    ensures Persistable(d.Set(KeyOf(c, id), Obj(c, id, initial)), Registry)
  {
  }

  /** `destroy` only removes an entry, so every remaining instance stays reloadable. */
  lemma DestroyKeepsPersistable(d: Dict<Obj>, k: string)
    requires Persistable(d, Registry)
    ensures Persistable(d.Remove(k), Registry)
  {
  }

  class HBNBCommand {
    /** The shared store, `models.storage`. */
    const storage: FileStorage

    ghost predicate Valid()
      reads this, storage, storage.table
    {
      storage.Valid()
    }

    constructor(s: FileStorage)
      requires s.Valid()
      ensures storage == s && Valid()
    {
      storage := s;
    }

    /** An empty line does nothing and prints nothing. */
    method EmptyLine() returns (out: seq<Line>)
      ensures out == []
    {
      out := [];
    }

    /**
     * `create <C>`: make an instance of `C` with the fresh id `freshId` and
     * the attributes its constructor sets, store it, print its id and save.
     */
    method DoCreate(tokens: seq<string>, freshId: string, initial: Attrs) returns (out: seq<Line>)
      requires Valid()
      requires "id" !in initial && "__class__" !in initial
      modifies storage, storage.table
      ensures Valid()
      ensures Persistable(old(storage.table.Contents()), Registry) ==> Persistable(storage.table.Contents(), Registry)
      ensures var v := CreateCheck(tokens);
        if v.Reject? then
          && out == [Text(Message(v.diagnostic))]
          && storage.table.Contents() == old(storage.table.Contents()) && storage.file == old(storage.file)
        else
          && out == [Text(freshId)]
          && storage.table.Contents() == old(storage.table.Contents()).Set(KeyOf(v.action, freshId), Obj(v.action, freshId, initial))
          && storage.file == Some(Flatten(storage.table.Contents()))
    {
      var v := CreateCheck(tokens);
      if v.Reject? {
        out := [Text(Message(v.diagnostic))];
      } else {
        ghost var before := storage.table.Contents();
        // The class's constructor registers the new instance with the store.
        storage.New(Some(Obj(v.action, freshId, initial)));
        if Persistable(before, Registry) {
          assert v.action in Registry;
          CreateKeepsPersistable(before, v.action, freshId, initial);
        }
        out := [Text(freshId)];
        storage.Save();
      }
    }

    /** `show <C> <id>`: print the instance at `C.id`; the store is only read. */
    method DoShow(tokens: seq<string>) returns (out: seq<Line>)
      requires Valid()
      ensures var v := LocateCheck(tokens, storage.table.entries.Keys);
        if v.Reject? then out == [Text(Message(v.diagnostic))]
        else out == [Shown(storage.table.entries[v.action])]
    {
      var objects := storage.All();
      var v := LocateCheck(tokens, objects.entries.Keys);
      if v.Reject? {
        out := [Text(Message(v.diagnostic))];
      } else {
        out := [Shown(objects.entries[v.action])];
      }
    }

    /** `destroy <C> <id>`: delete the entry at `C.id` through the live table, then save. */
    method DoDestroy(tokens: seq<string>) returns (out: seq<Line>)
      requires Valid()
      modifies storage, storage.table
      ensures Valid()
      ensures Persistable(old(storage.table.Contents()), Registry) ==> Persistable(storage.table.Contents(), Registry)
      ensures var v := LocateCheck(tokens, old(storage.table.entries.Keys));
        if v.Reject? then
          && out == [Text(Message(v.diagnostic))]
          && storage.table.Contents() == old(storage.table.Contents()) && storage.file == old(storage.file)
        else
          && out == []
          && storage.table.Contents() == old(storage.table.Contents()).Remove(v.action)
          && storage.file == Some(Flatten(storage.table.Contents()))
    {
      var objects := storage.All();
      var v := LocateCheck(tokens, objects.entries.Keys);
      if v.Reject? {
        out := [Text(Message(v.diagnostic))];
      } else {
        objects.Delete(v.action);
        out := [];
        storage.Save();
      }
    }

    /**
     * `all [<C>]`: print every instance in table order, or, given a
     * registered class name, those whose key contains it.
     */
    method DoAll(tokens: seq<string>) returns (out: seq<Line>)
      requires Valid()
      ensures var v := AllCheck(tokens);
        if v.Reject? then out == [Text(Message(v.diagnostic))]
        else out == Lines(Select(storage.table.keys, v.action), storage.table.entries)
      ensures tokens == [] ==> out == Lines(storage.table.keys, storage.table.entries)
    {
      var objects := storage.All();
      var keys, entries := objects.keys, objects.entries;
      assert forall k :: k in keys ==> k in entries;
      if tokens == [] {
        out := [];
        var i := 0;
        while i < |keys|
          invariant 0 <= i <= |keys|
          invariant out == Lines(keys[..i], entries)
        {
          assert keys[..i + 1][..i] == keys[..i];
          out := out + [Shown(entries[keys[i]])];
          i := i + 1;
        }
        assert keys[..i] == keys;
        SelectExact(keys, None);
      } else if tokens[0] in Registry {
        var name := tokens[0];
        out := [];
        var i := 0;
        while i < |keys|
          invariant 0 <= i <= |keys|
          invariant out == Lines(Select(keys[..i], Some(name)), entries)
        {
          var key := keys[i];
          SelectStep(keys, i, Some(name));
          if Contains(key, name) {
            out := out + [Shown(entries[key])];
          }
          i := i + 1;
        }
        assert keys[..i] == keys;
      } else {
        out := [Text(Message(ClassDoesntExist))];
      }
    }

    /**
     * `update <C> <id> <name> <value>`: set attribute `name` of the instance
     * at `C.id` to the string `value`, then save; extra tokens are ignored.
     */
    method DoUpdate(tokens: seq<string>) returns (out: seq<Line>)
      requires Valid()
      modifies storage, storage.table
      ensures Valid()
      ensures var v := UpdateCheck(tokens, old(storage.table.entries.Keys));
        if v.Reject? then
          && out == [Text(Message(v.diagnostic))]
          && storage.table.Contents() == old(storage.table.Contents()) && storage.file == old(storage.file)
        else
          && out == []
          && storage.table.Contents() ==
             old(storage.table.Contents()).Set(v.action.key, SetAttr(old(storage.table.entries[v.action.key]), v.action.name, v.action.value))
          && storage.file == Some(Flatten(storage.table.Contents()))
    {
      var objects := storage.All();
      var v := UpdateCheck(tokens, objects.entries.Keys);
      if v.Reject? {
        out := [Text(Message(v.diagnostic))];
      } else {
        var obj := objects.entries[v.action.key];
        objects.Put(v.action.key, SetAttr(obj, v.action.name, v.action.value));
        out := [];
        storage.Save();
      }
    }
  }
}
