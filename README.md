# HBNB console and FileStorage, modelled in Dafny

This project models the two components at the heart of the HBNB command
interpreter (an AirBnB clone):

- **FileStorage** (`models/engine/file_storage.py`). This is the single store
  from the key `"<ClassName>.<id>"` to a model instance. `all()` hands out the
  live dict. `new(obj)` inserts or overwrites the entry under the instance's
  class name and id. `save()` flattens every instance with `to_dict()` into one
  JSON object. `reload()` rebuilds instances from that file.
- **HBNBCommand** (`console.py`). This is the command dispatcher. `create`,
  `show`, `destroy`, `all` and `update` each check their tokens against the
  registered classes (`classes`, console.py:19-27) and the store's keys. The
  checks run in a fixed order, and the first failure prints one fixed
  diagnostic. Otherwise the handler does one store operation and, for the
  three that change the store, saves.

Files:

- `wrappers.dfy`: Option and Result.
- `dicts.dfy`: Python's dict as the source uses it. The keys are kept in
  insertion order. Assigning to a present key keeps its position, a new key is
  appended, and `del` closes the gap.
- `models.dfy`: the registry of class names, and an instance as class name, id
  and string attributes. It also has `ToDict` and `Rebuild`, which stand for the
  model classes' `to_dict` and their keyword-argument constructor.
- `storage.dfy`: class `Table` is the live `__objects` dict object. Class
  `FileStorage` holds that table as a `const` and keeps the content of
  `file.json` in a field (`None` when the file does not exist). The file also
  has the save/reload lemmas.
- `console.dfy`: each validation chain is a total function
  from tokens and stored keys to a `Verdict`. Each chain is proved against an
  independent reference: a rank-ordered list of failure conditions, checked
  for "first failing check wins". The handlers are methods of `HBNBCommand`,
  and they return their printed lines.

The key invariant is that every key is the class name and id of its instance
(`Storage.KeyShaped`). `new` preserves it. It is not an invariant of the
program, though: `update C x id y` changes the instance's id and leaves it
under the key `C.x`. `Console.UpdateKeyShapeIff` proves exactly when an update
keeps the invariant.

Three behaviours of the code that a reader might not expect, which the model keeps:

- a failing `reload` keeps the records inserted before the bad one;
- `update` saves through the store and does not refresh `updated_at`;
- `all <C>` filters by substring on the whole key.

`Reload` departs from the code in one respect: it resolves a record's class
name against the registry instead of the names file_storage.py imports (see
Findings).

## Model

| member | source | states |
|---|---|---|
| Models.RegistryMatchesClasses | console.py:19-27 | The registered class names are exactly the seven keys of `classes`. |
| Models.SetAttr | console.py:146 | `setattr` never changes the class name. Setting `id` changes the instance's id and leaves its attributes alone. Any other name sets that attribute to the value and leaves every other attribute as it was. |
| Models.ToDict | models/engine/file_storage.py:36 | The record holds `"__class__"` (the class name) and `"id"`. Its fields are exactly the attributes plus those two, and each attribute keeps its value. |
| Models.Rebuild | models/engine/file_storage.py:49 | Rebuilding succeeds exactly when the record has a `"__class__"` that resolves and an `"id"`. The instance gets that class name and id, and its attributes are the record's other fields with their values. A missing `"__class__"` is its own error. |
| Models.RebuildToDict | models/engine/file_storage.py:36-49 | Flattening a well-formed instance of a known class and rebuilding it gives back the same instance. |
| Storage.Table.Put | models/engine/file_storage.py:30 | `__objects[key] = obj`: the table becomes the old table with that key set, in dict order. |
| Storage.Table.Delete | console.py:99 | `del` on the live dict: the table becomes the old table without that key. |
| Storage.FileStorage.constructor | models/engine/file_storage.py:20-21 | The store starts with an empty table and the file as found on disk. |
| Storage.FileStorage.All | models/engine/file_storage.py:23-25 | Every call returns the same table object. A deletion made through it is what later calls see. |
| Storage.FileStorage.New | models/engine/file_storage.py:27-30 | `None` leaves the table unchanged. Otherwise the table gains or overwrites the entry at `class name + "." + id`. |
| Storage.NewKeepsKeyShape | models/engine/file_storage.py:27-30 | `new` writes exactly the entry at the instance's key, leaves every other key and value unchanged, and preserves the key invariant. |
| Storage.FileStorage.Save | models/engine/file_storage.py:32-38 | The file becomes a record map with the table's keys in table order and the same key set. Each value is that instance's `to_dict` record. |
| Storage.FileStorage.Reload | models/engine/file_storage.py:40-50 | A missing file leaves the table unchanged with no error. Otherwise the result is `Load` of the file's records, in file order, into the old table (class names resolved against the registry, see Findings). |
| Storage.LoadMerges | models/engine/file_storage.py:48-50 | A load that succeeds gives every file key its rebuilt record and overwrites same-key entries. It keeps every entry the file does not mention and does not clear the table. |
| Storage.Load | models/engine/file_storage.py:48-50 | The reload loop: inserts records in file order under the file's keys. It keeps the table well-formed and never drops an entry that was already there. |
| Storage.LoadStopsAtBadRecord | models/engine/file_storage.py:48-50 | When record `j` is the first that cannot be rebuilt, the load stops with that record's error. The table is exactly what loading records `0..j-1` produced, so those stay inserted. |
| Storage.SaveReloadRoundTrip | models/engine/file_storage.py:32-50 | Saving a table of well-formed instances of registered classes, then reloading into an empty store, gives the same table: same keys in the same order, each instance rebuilt from its record. |
| Storage.ReloadAsWrittenRejectsUser | models/engine/file_storage.py:49 | As written, reloading a saved User fails with an unknown class name: `eval` sees only the names file_storage.py imports. |
| Console.CreateCheck | console.py:54-59 | `create` reports the first failing check among "class name missing" and "class doesn't exist", and passes exactly when neither fails. The class acted on is token 0. |
| Console.LocateCheck | console.py:69-81 | For `show` (and the identical chain of `destroy`, console.py:89-102), the report is the first failing check of: class name missing, class doesn't exist, instance id missing, no instance found. The check passes exactly when none fails. The lookup key is `token0 + "." + token1` and is stored. |
| Console.UpdateCheck | console.py:128-145 | `update` reports the first failing check of the six, in the order: class name missing, class doesn't exist, instance id missing, no instance found, attribute name missing, value missing. It passes exactly when none fails. It then acts on key `token0.token1`, name `token2`, value `token3`; extra tokens are ignored. |
| Console.AllCheck | console.py:110-119 | `all` rejects exactly when a first token is given and is not registered, and then reports "class doesn't exist". With no tokens it lists everything; otherwise it filters by token 0. |
| Console.Contains | console.py:116 | Python's `name in key`: true when `name` is a prefix of `key`, and only possible when `name` is no longer than `key`. ContainsIffOccurs gives its exact meaning. |
| Console.Select | console.py:114-117 | The keys the filter loop prints, in table order. Every selected key is a stored key; SelectExact states exactly which are selected. |
| Console.ContainsIffOccurs | console.py:116 | The executable `name in key` holds exactly when `name` occurs in `key` at some position. |
| Console.Lines | console.py:112-113 | One printed instance per key, in key order. |
| Console.SelectExact | console.py:114-117 | The keys `all <C>` prints are exactly the stored keys containing `C`, each once. Without a class name, all keys are printed, in table order. |
| Console.AllListsEveryInstanceOfClass | console.py:114-117 | Under the key invariant, `all <C>` lists every instance of class C. |
| Console.AllFilterMatchesIds | console.py:116 | The filter is a substring test on the whole key: `all User` also lists `Place.User-1`. |
| Console.NoTokensReportsClassNameMissing | console.py:55-56 | With no tokens, create, show/destroy and update all report "class name missing" (also console.py:70-71, 90-91, 129-130). |
| Console.UnknownClassReportedFirst | console.py:57-58 | An unregistered class name is reported by every command before any id check, `all` included (also console.py:72-73, 92-93, 118-119, 131-132). |
| Console.ShowFindsCreated | console.py:60-79 | After `create C` stores an instance with id X, the `show C X` checks accept key `C.X`, and the instance there has id X. |
| Console.ShowAfterDestroy | console.py:97-102 | Once key `C.X` is removed, `show C X` reports "no instance found". |
| Console.UpdateKeyShapeIff | console.py:141-146 | An update keeps every key equal to its instance's class name and id exactly when it does not set `id` to a different value. |
| Console.CreateKeepsPersistable | console.py:59-62 | Storing a new instance of a registered class, whose constructor attributes hold neither `id` nor `__class__`, keeps every instance reloadable. |
| Console.DestroyKeepsPersistable | console.py:97-100 | Removing an entry keeps every remaining instance reloadable. With the create and update lemmas, any sequence of these commands preserves the save-then-reload round trip. |
| Console.UpdateKeepsPersistable | console.py:146 | Updating any attribute but `__class__` keeps every instance reloadable. |
| Console.HBNBCommand.EmptyLine | console.py:37-39 | An empty line prints nothing and changes nothing. |
| Console.HBNBCommand.DoCreate | console.py:49-62 | On a rejected check: one diagnostic, and the store and file are unchanged. Otherwise the new instance is stored under `C.freshId`, the id is printed, and the file becomes the flattened table. The constructor's attributes never include `id` or `__class__`, so a reloadable table stays reloadable. |
| Console.HBNBCommand.DoShow | console.py:64-81 | Never modifies the store. Prints the first failing diagnostic, or the instance at `token0.token1`. |
| Console.HBNBCommand.DoDestroy | console.py:83-102 | On a rejected check: one diagnostic, and nothing changes. Otherwise exactly that key is removed through the live table, every other entry stays, and the store is saved. A reloadable table stays reloadable. |
| Console.HBNBCommand.DoAll | console.py:104-119 | Unregistered class: one "class doesn't exist" line. No tokens: every stored instance once, in table order. Registered class: the instances whose key contains it, in table order. |
| Console.HBNBCommand.DoUpdate | console.py:121-147 | On a rejected check: one diagnostic, and nothing changes. Otherwise only the entry at `token0.token1` changes, keeping its position: attribute `token2` becomes the string `token3`. Then the store is saved. |

## Left out

- Tokenisation with `shlex.split` (console.py:54, 69, 89, 110, 128): each handler takes the token sequence as input.
- The `cmd.Cmd` loop, the prompt, `do_quit`, `do_EOF` and `cmdloop` (console.py:35, 41-47, 149-150): these are shell mechanics.
- File I/O (models/engine/file_storage.py:37-38, 44, 47-48): `file.json` is its content, `None` when absent. JSON text encoding is not modelled. Writes never fail, so the I/O-error path of `save` is not modelled.
- `eval` of an arbitrary expression (models/engine/file_storage.py:49): a class name is resolved as a bare name against a set of names. That set is `NamesInScope` for the code as written and the registry for `Reload`.
- The model classes (BaseModel, User, State, City, Place, Amenity, Review) are not part of this model:
  - the uuid id is the `freshId` input of `DoCreate`;
  - the constructor's timestamps are its `initial` attributes, kept as strings, so the datetime conversions are not modelled;
  - `__str__` is the `Shown(instance)` line;
  - `to_dict` and the keyword constructor are `ToDict` and `Rebuild`.
- Models.Rebuild: a record without an `"id"` field is a load error. What the model classes would do with it is not visible.
- Console.HBNBCommand.DoCreate: the constructor's own call to `storage.new`, which console.py:60 relies on, is made by `DoCreate` itself. The constructor's `initial` attributes are an input; it requires that they hold no `id` or `__class__`, since the constructor sets the id separately.
- Console.HBNBCommand.DoUpdate: attribute names that Python treats specially on an object are stored as plain attributes. Setting `__class__` to a string raises TypeError, a method name would shadow the method, and a timestamp name would break `to_dict`.
- Instances are values. The in-place `setattr` on the shared instance is modelled as replacing the entry at its key, which keeps its position. Nothing else in the core holds a reference to an instance.
- `__objects` is shared by every FileStorage instance in Python. Here each FileStorage has its own table; the program only ever uses one.

## Findings

| source | as written | input that shows it | evidently intended | confidence | as-written member | corrected member |
|---|---|---|---|---|---|---|
| models/engine/file_storage.py:49 | `eval(value["__class__"])` resolves the class name among the names file_storage.py imports (line 9: only BaseModel), so any other class raises NameError and reload stops | a `file.json` holding `{"User.1": {"__class__": "User", "id": "1"}}`, which `create User` followed by a save writes | rebuild an instance of any registered class (console.py:19-27) | medium, not executed | Storage.ReloadAsWrittenRejectsUser | Storage.SaveReloadRoundTrip |
