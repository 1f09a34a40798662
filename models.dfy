/**
 * The model classes (BaseModel, User, State, City, Place, Amenity, Review)
 * as the store and the console see them: an instance is its class name, its
 * id and its other attributes, every value a string. The classes themselves
 * are not part of this model; `ToDict` and `Rebuild` stand for their
 * `to_dict` method and their keyword-argument constructor.
 */
module Models {
  import opened Wrappers

  /** The registered class names: the `classes` table of console.py. */
  const Registry: set<string> := {"BaseModel", "User", "State", "City", "Place", "Amenity", "Review"}

  /** The registered names are exactly the seven keys of the `classes` table, in its order. */
  lemma RegistryMatchesClasses()
    ensures forall n :: n in Registry <==> n in ["BaseModel", "User", "State", "City", "Place", "Amenity", "Review"]
    ensures |Registry| == 7
  {
  }

  type Attrs = map<string, string>

  /** A persisted record: one flat JSON object of attribute name to value. */
  type Record = map<string, string>

  /** An instance of a model class. */
  datatype Obj = Obj(tag: string, id: string, attrs: Attrs)

  /** The store key `"<ClassName>.<id>"`. */
  function KeyOf(tag: string, id: string): (key: string) {
    tag + "." + id
  }

  /** Two keys of the same class name are equal only when their ids are. */
  lemma KeyOfInjective(tag: string, a: string, b: string)
    ensures KeyOf(tag, a) == KeyOf(tag, b) ==> a == b
  {
    assert KeyOf(tag, a)[|tag| + 1..] == a;
    assert KeyOf(tag, b)[|tag| + 1..] == b;
  }

  /** The id and the class name are kept outside the attribute map. */
  ghost predicate WellFormed(o: Obj) {
    "id" !in o.attrs && "__class__" !in o.attrs
  }

  /** `setattr(o, name, value)`: `id` is the instance's id, any other name an attribute. */
  function SetAttr(o: Obj, name: string, value: string): (r: Obj)
    ensures r.tag == o.tag
    ensures name == "id" ==> r.id == value && r.attrs == o.attrs
    ensures name != "id" ==> r.id == o.id && name in r.attrs && r.attrs[name] == value
    ensures forall a :: a != name ==> (a in r.attrs <==> a in o.attrs)
    ensures forall a :: a in o.attrs && a != name ==> r.attrs[a] == o.attrs[a]
  {
    if name == "id" then o.(id := value) else o.(attrs := o.attrs[name := value])
  }

  /** `o.to_dict()`: the attributes, the id, and `"__class__"` set to the class name. */
  function ToDict(o: Obj): (r: Record)
    ensures "__class__" in r && r["__class__"] == o.tag
    ensures "id" in r && r["id"] == o.id
    ensures r.Keys == o.attrs.Keys + {"id", "__class__"}
    ensures forall k :: k in o.attrs && k != "id" && k != "__class__" ==> r[k] == o.attrs[k]
  {
    o.attrs["id" := o.id]["__class__" := o.tag]
  }

  /** Why a persisted record cannot be turned back into an instance. */
  datatype LoadError =
    | MissingClass            // the record has no "__class__" field
    | UnknownClass(tag: string) // its class name does not resolve
    | MissingId               // the record has no "id" field

  /**
   * Rebuild an instance from a persisted record, resolving its class name
   * against `known`: every field but `"__class__"` becomes an attribute.
   */
  function Rebuild(r: Record, known: set<string>): (res: Result<Obj, LoadError>)
    ensures res.Success? <==> "__class__" in r && r["__class__"] in known && "id" in r
    ensures res.Success? ==> res.value.tag == r["__class__"] && res.value.id == r["id"] && WellFormed(res.value)
    ensures res.Success? ==> res.value.attrs == r - {"__class__", "id"}
    ensures res.Failure? && "__class__" !in r ==> res.error == MissingClass
  {
    if "__class__" !in r then Failure(MissingClass)
    else if r["__class__"] !in known then Failure(UnknownClass(r["__class__"]))
    else if "id" !in r then Failure(MissingId)
    else Success(Obj(r["__class__"], r["id"], r - {"__class__", "id"}))
  }

  /** Flattening an instance of a known class and rebuilding it gives it back unchanged. */
  lemma RebuildToDict(o: Obj, known: set<string>)
    requires WellFormed(o) && o.tag in known
    ensures Rebuild(ToDict(o), known) == Success(o)
  {
    var r := ToDict(o);
    assert r - {"__class__", "id"} == o.attrs;
  }
}
