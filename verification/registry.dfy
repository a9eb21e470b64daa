/**
 * Object identity and the shared attribute store: every runtime object gets an
 * id (automatic, explicit or none), registered objects are found by id and by
 * class name, a census counts the live instances of each exact class object,
 * and one attribute dictionary is shared by all objects.
 */
module Registry {
  import opened Wrappers
  import Decimal

  /** The id argument of a constructor: automatic, none, or an explicit name. */
  datatype Id = Auto | NoId | Named(name: string)

  /**
   * A class object. Its identity is the object itself: two distinct classes,
   * such as a subclass and its parent, may carry the same `__name__`.
   */
  class PyClass {
    const name: string

    constructor (name: string)
      ensures this.name == name
    {
      this.name := name;
    }
  }

  /** A runtime object: its exact class, and its id when it was registered. */
  class CharmyObject {
    const cls: PyClass
    const id: Option<string>

    constructor (cls: PyClass, id: Option<string>)
      ensures this.cls == cls && this.id == id
    {
      this.cls := cls;
      this.id := id;
    }
  }

  /** Construction raises `KeyError(id)` when the id is taken. */
  datatype Fault = KeyError(key: string)

  /** The automatic id: the class name followed by the decimal census count. */
  function AutoId(className: string, count: nat): (id: string)
    ensures |id| > |className| && id[..|className|] == className
    ensures Decimal.IsDigit(id[|id| - 1])
  {
    className + Decimal.NatToString(count)
  }

  /** Within one class, different census counts give different automatic ids. */
  lemma AutoIdsDistinct(className: string, m: nat, n: nat)
    requires m != n
    ensures AutoId(className, m) != AutoId(className, n)
  {
    if AutoId(className, m) == AutoId(className, n) {
      assert Decimal.NatToString(m) == AutoId(className, m)[|className|..];
      assert Decimal.NatToString(n) == AutoId(className, n)[|className|..];
      Decimal.NatToStringInjective(m, n);
    }
  }

  /** Automatic ids of different classes can coincide ("A1" + "0" and "A" + "10"). */
  lemma AutoIdsOfDifferentClassesMayCoincide()
    ensures AutoId("A1", 0) == AutoId("A", 10)
  {
    assert Decimal.NatToString(10) == Decimal.NatToString(1) + "0";
  }

  /** The id a constructor settles on; `None` means the object is not registered. */
  function ChosenId(arg: Id, className: string, count: nat): (r: Option<string>)
    ensures r.None? <==> arg.NoId?
    ensures arg.Named? ==> r == Some(arg.name)
    ensures arg.Auto? ==> |r.value| > |className| && r.value[..|className|] == className
  {
    match arg
    case Auto => Some(AutoId(className, count))
    case NoId => None
    case Named(name) => Some(name)
  }

  /** The objects of one class in the by-class view, empty when the class has none. */
  function Group(sorted: map<string, map<string, CharmyObject>>, className: string): map<string, CharmyObject> {
    if className in sorted then sorted[className] else map[]
  }

  /** The live instances of exactly this class, as a census records them. */
  function LiveIn(census: map<PyClass, set<CharmyObject>>, cls: PyClass): set<CharmyObject> {
    if cls in census then census[cls] else {}
  }

  /** Every object is registered under its own id. */
  ghost predicate IdsMatch(objects: map<string, CharmyObject>) {
    forall i | i in objects :: objects[i].id == Some(i)
  }

  /** Every object registered by id appears under its class in the by-class view. */
  ghost predicate ByIdInByClass(objects: map<string, CharmyObject>, sorted: map<string, map<string, CharmyObject>>) {
    forall i | i in objects ::
      i in Group(sorted, objects[i].cls.name) && Group(sorted, objects[i].cls.name)[i] == objects[i]
  }

  /** Every entry of the by-class view is registered by id. */
  ghost predicate ByClassInById(objects: map<string, CharmyObject>, sorted: map<string, map<string, CharmyObject>>) {
    forall c, i | c in sorted && i in sorted[c] :: i in objects && objects[i] == sorted[c][i]
  }

  /** The census of a class holds instances of exactly that class. */
  ghost predicate CensusTyped(census: map<PyClass, set<CharmyObject>>) {
    forall c, o | c in census && o in census[c] :: o.cls == c
  }

  /** A registered object is strongly held, so it stays in its census. */
  ghost predicate RegisteredLive(objects: map<string, CharmyObject>, census: map<PyClass, set<CharmyObject>>) {
    forall i | i in objects :: objects[i] in LiveIn(census, objects[i].cls)
  }

  /** Registering under a free id keeps the two views in agreement. */
  lemma RegisterKeepsViews(objects: map<string, CharmyObject>, sorted: map<string, map<string, CharmyObject>>,
                           id: string, o: CharmyObject)
    requires ByIdInByClass(objects, sorted) && ByClassInById(objects, sorted) && id !in objects
    ensures var objects', sorted' := objects[id := o], sorted[o.cls.name := Group(sorted, o.cls.name)[id := o]];
      ByIdInByClass(objects', sorted') && ByClassInById(objects', sorted')
  {
    var objects', sorted' := objects[id := o], sorted[o.cls.name := Group(sorted, o.cls.name)[id := o]];
    forall i | i in objects'
      ensures i in Group(sorted', objects'[i].cls.name) && Group(sorted', objects'[i].cls.name)[i] == objects'[i]
    {
      if i != id {
        assert i in objects;
      }
    }
  }

  /** Registering a counted object under its own id keeps ids matching and registered objects live. */
  lemma RegisterKeepsIds(objects: map<string, CharmyObject>, census: map<PyClass, set<CharmyObject>>,
                         id: string, o: CharmyObject)
    requires IdsMatch(objects) && RegisteredLive(objects, census)
    requires o.id == Some(id) && o in LiveIn(census, o.cls)
    ensures IdsMatch(objects[id := o]) && RegisteredLive(objects[id := o], census)
  {
  }

  /** Adding a new instance to its own class's census keeps the census typed and the registered objects live. */
  lemma EnlistKeepsCensus(objects: map<string, CharmyObject>, census: map<PyClass, set<CharmyObject>>, o: CharmyObject)
    requires CensusTyped(census) && RegisteredLive(objects, census)
    ensures var census' := census[o.cls := LiveIn(census, o.cls) + {o}];
      CensusTyped(census') && RegisteredLive(objects, census')
  {
  }

  /** The process-wide state behind the object base class. */
  class Runtime<V> {
    /** Registered objects by id. */
    var objects: map<string, CharmyObject>
    /** Registered objects by class name, then id. */
    var objectsSorted: map<string, map<string, CharmyObject>>
    /** The live instances of each exact class object. */
    var census: map<PyClass, set<CharmyObject>>
    /** The attribute store shared by every object. */
    var attributes: map<string, V>

    ghost predicate Valid()
      reads this
    {
      && IdsMatch(objects)
      && ByIdInByClass(objects, objectsSorted) && ByClassInById(objects, objectsSorted)
      && CensusTyped(census) && RegisteredLive(objects, census)
    }

    constructor ()
      ensures Valid()
      ensures objects == map[] && objectsSorted == map[] && census == map[] && attributes == map[]
    {
      objects, objectsSorted, census, attributes := map[], map[], map[], map[];
    }

    /** The live instances of exactly this class. */
    function Live(cls: PyClass): set<CharmyObject>
      reads this
    {
      LiveIn(census, cls)
    }

    /** `instance_count`: the size of the class's own census. */
    function InstanceCount(cls: PyClass): (n: nat)
      reads this
      ensures n == |Live(cls)|
      ensures n == 0 <==> Live(cls) == {}
    {
      |Live(cls)|
    }

    /**
     * Building an object of class `cls`: the id is chosen from the class's
     * name and its own census, a taken id raises KeyError with nothing
     * changed, otherwise the object is registered under the class's name
     * (unless its id is `NoId`) and joins its own class's census.
     */
    method Construct(cls: PyClass, arg: Id) returns (r: Result<CharmyObject, Fault>)
      requires Valid()
      modifies this
      ensures Valid()
      ensures attributes == old(attributes)
      ensures var chosen := ChosenId(arg, cls.name, old(InstanceCount(cls)));
        && (r.Failure? <==> chosen.Some? && chosen.value in old(objects))
        && (r.Failure? ==>
              && r.error == KeyError(chosen.value)
              && objects == old(objects) && objectsSorted == old(objectsSorted) && census == old(census))
        && (r.Success? ==>
              && fresh(r.value) && r.value.cls == cls && r.value.id == chosen
              && census == old(census)[cls := old(Live(cls)) + {r.value}]
              && InstanceCount(cls) == old(InstanceCount(cls)) + 1
              && (forall c: PyClass | c != cls && old(allocated(c)) :: Live(c) == old(Live(c)))
              && (chosen.None? ==> objects == old(objects) && objectsSorted == old(objectsSorted))
              && (chosen.Some? ==>
                    && objects == old(objects)[chosen.value := r.value]
                    && objectsSorted == old(objectsSorted)[cls.name :=
                         Group(old(objectsSorted), cls.name)[chosen.value := r.value]]))
    {
      var chosen := ChosenId(arg, cls.name, InstanceCount(cls));
      if chosen.Some? && chosen.value in objects {
        return Failure(KeyError(chosen.value));
      }
      var o := new CharmyObject(cls, chosen);
      assert o !in Live(cls);
      Enlist(o);
      if chosen.Some? {
        Register(chosen.value, o);
      }
      r := Success(o);
    }

    /** Adds a new instance to its own class's census. */
    method Enlist(o: CharmyObject)
      requires Valid()
      modifies this
      ensures Valid()
      ensures census == old(census)[o.cls := old(Live(o.cls)) + {o}]
      ensures objects == old(objects) && objectsSorted == old(objectsSorted) && attributes == old(attributes)
    {
      EnlistKeepsCensus(objects, census, o);
      census := census[o.cls := Live(o.cls) + {o}];
    }

    /** Inserts a counted object into both views under a free id. */
    method Register(id: string, o: CharmyObject)
      requires Valid() && id !in objects && o.id == Some(id) && o in Live(o.cls)
      modifies this
      ensures Valid()
      ensures objects == old(objects)[id := o]
      ensures objectsSorted == old(objectsSorted)[o.cls.name := Group(old(objectsSorted), o.cls.name)[id := o]]
      ensures census == old(census) && attributes == old(attributes)
    {
      RegisterKeepsViews(objects, objectsSorted, id, o);
      RegisterKeepsIds(objects, census, id, o);
      objects := objects[id := o];
      objectsSorted := objectsSorted[o.cls.name := Group(objectsSorted, o.cls.name)[id := o]];
    }

    /**
     * The collector dropping an instance nothing else refers to. Registered
     * objects are held by `objects`, so only an unregistered one can go.
     */
    method Release(o: CharmyObject)
      requires Valid() && o.id.None? && o in Live(o.cls)
      modifies this
      ensures Valid()
      ensures census == old(census)[o.cls := old(Live(o.cls)) - {o}]
      ensures InstanceCount(o.cls) == old(InstanceCount(o.cls)) - 1
      ensures objects == old(objects) && objectsSorted == old(objectsSorted)
      ensures attributes == old(attributes)
    {
      census := census[o.cls := Live(o.cls) - {o}];
    }

    /** `get_obj` (alias `find`): the object registered under an id, else the default. */
    function GetObj(targetId: string, default: CharmyObject?): (r: CharmyObject?)
      reads this
      ensures targetId in objects ==> r == objects[targetId]
      ensures targetId !in objects ==> r == default
      ensures Valid() && targetId in objects ==> r != null && r.id == Some(targetId)
    {
      if targetId in objects then objects[targetId] else default
    }

    /** `cget`: the shared attribute, or the default when it was never set. */
    function CGet(name: string, default: V): (r: V)
      reads this
      ensures name in attributes ==> r == attributes[name]
      ensures name !in attributes ==> r == default
    {
      if name in attributes then attributes[name] else default
    }

    /** `cset`: writes the shared attribute, whichever object it is called on. */
    method CSet(name: string, value: V)
      modifies this
      ensures attributes == old(attributes)[name := value]
      ensures forall d: V :: CGet(name, d) == value
      ensures forall n, d: V | n != name ::
        CGet(n, d) == if n in old(attributes) then old(attributes)[n] else d
      ensures objects == old(objects) && objectsSorted == old(objectsSorted) && census == old(census)
    {
      attributes := attributes[name := value];
    }

    /** `cconfig`: `cset` for every keyword; names not given keep their values. */
    method CConfig(kw: map<string, V>)
      modifies this
      ensures attributes == old(attributes) + kw
      ensures forall n, d: V | n !in kw ::
        CGet(n, d) == if n in old(attributes) then old(attributes)[n] else d
      ensures objects == old(objects) && objectsSorted == old(objectsSorted) && census == old(census)
    {
      var pending := kw.Keys;
      while pending != {}
        invariant pending <= kw.Keys
        invariant attributes == old(attributes) + (map k | k in kw && k !in pending :: kw[k])
        invariant objects == old(objects) && objectsSorted == old(objectsSorted) && census == old(census)
        decreases pending
      {
        var name :| name in pending;
        CSet(name, kw[name]);
        pending := pending - {name};
      }
      assert (map k | k in kw && k !in pending :: kw[k]) == kw;
    }
  }

  /**
   * A subclass that reuses its parent's name has a census of its own, so its
   * first automatic id repeats the parent's first one and construction raises
   * KeyError.
   */
  method SameNamedSubclassCollides() returns (first: Result<CharmyObject, Fault>, second: Result<CharmyObject, Fault>)
    ensures first.Success? && first.value.id == Some("Window0")
    ensures second == Failure(KeyError("Window0"))
  {
    var rt := new Runtime<int>();
    var parent := new PyClass("Window");
    var sub := new PyClass("Window");
    assert AutoId("Window", 0) == "Window0";
    first := rt.Construct(parent, Auto);
    second := rt.Construct(sub, Auto);
  }
}
