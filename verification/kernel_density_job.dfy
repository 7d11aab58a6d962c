/** The kernel-density analysis job parameter of
    src/common/iServer/KernelDensityJobParameter.js: its documented
    defaults, `initialize`, `destroy`, and the static `toObject` that splits
    the parameter's properties into an `input` and an `analyst` object. */
module KernelDensityJob {
  import opened Options

  /** A JavaScript value as far as this object uses it. `Method` is one of
      the functions the class puts on its prototype; `Obj` is a plain object. */
  datatype Value =
    | Null
    | Str(s: string)
    | Number(n: real)
    | Bool(b: bool)
    | Obj(fields: map<string, Value>)
    | Method(name: string)

  /** JavaScript truthiness. */
  predicate Truthy(v: Value) {
    match v
    case Null => false
    case Str(s) => s != ""
    case Number(n) => n != 0.0
    case Bool(b) => b
    case Obj(_) => true
    case Method(_) => true
  }

  /** The ten documented data properties. */
  const DataFields: set<string> :=
    {"datasetName", "query", "resolution", "method", "meshType", "fields",
     "radius", "meshSizeUnit", "radiusUnit", "areaUnit"}

  /** The class prototype: the documented defaults and the two methods.
      Every property of the class's object literal is enumerable, so a
      `for…in` over an instance visits all of them. */
  const Prototype: map<string, Value> :=
    map["datasetName" := Str(""), "query" := Str(""), "resolution" := Number(80.0),
        "method" := Number(0.0), "meshType" := Number(0.0), "fields" := Str(""),
        "radius" := Number(300.0), "meshSizeUnit" := Str("Meter"),
        "radiusUnit" := Str("Meter"), "areaUnit" := Str("SquareMile"),
        "initialize" := Method("initialize"), "destroy" := Method("destroy")]

  /** An instance: its own properties over the prototype. */
  datatype JobParameter = JobParameter(own: map<string, Value>)

  /** Every property a `for…in` over the instance visits, with the value it
      reads: own properties shadow the prototype's. */
  function Properties(p: JobParameter): map<string, Value> {
    Prototype + p.own
  }

  /** Every instance has a dataset name and a query to visit. */
  lemma PrototypeKeys(p: JobParameter)
    ensures "datasetName" in Properties(p) && "query" in Properties(p)
  {
  }

  /** `initialize`: no options leaves only the defaults; otherwise every
      option is copied onto the instance. */
  function Initialize(options: Option<map<string, Value>>): (p: JobParameter)
    ensures options.None? ==> Properties(p) == Prototype
    ensures options.Some? ==> forall k :: k in options.value ==> k in Properties(p) && Properties(p)[k] == options.value[k]
    ensures forall k :: k in Prototype && (options.None? || k !in options.value) ==>
              Properties(p)[k] == Prototype[k]
    ensures Properties(p).Keys == Prototype.Keys + (if options.Some? then options.value.Keys else {})
  {
    match options
    case None => JobParameter(map[])
    case Some(o) => JobParameter(o)
  }

  /** Without options the documented defaults hold: resolution 80, radius
      300, method 0, mesh type 0, units Meter, Meter and SquareMile, and empty
      dataset name, query and fields. */
  lemma DefaultsWithoutOptions()
    ensures var d := Properties(Initialize(None));
            d["resolution"] == Number(80.0) && d["radius"] == Number(300.0) &&
            d["method"] == Number(0.0) && d["meshType"] == Number(0.0) &&
            d["meshSizeUnit"] == Str("Meter") && d["radiusUnit"] == Str("Meter") &&
            d["areaUnit"] == Str("SquareMile") && d["datasetName"] == Str("") &&
            d["query"] == Str("") && d["fields"] == Str("")
  {
  }

  /** `destroy`: the ten data properties read null, everything else reads
      as before. */
  function Destroy(p: JobParameter): (r: JobParameter)
    ensures forall k :: k in DataFields ==> k in Properties(r) && Properties(r)[k] == Null
    ensures forall k :: k !in DataFields ==> (k in Properties(r) <==> k in Properties(p))
    ensures forall k :: k !in DataFields && k in Properties(p) ==> Properties(r)[k] == Properties(p)[k]
  {
    JobParameter(p.own + map k | k in DataFields :: Null)
  }

  /** Destroying twice is destroying once. */
  lemma DestroyIdempotent(p: JobParameter)
    ensures Destroy(Destroy(p)) == Destroy(p)
  {
  }

  /** The object `toObject` adds to under `slot`: the one already there when
      it is truthy, else a fresh empty one. */
  function Target(tempObj: map<string, Value>, slot: string): map<string, Value>
    requires Usable(tempObj, slot)
  {
    if slot in tempObj && Truthy(tempObj[slot]) then tempObj[slot].fields else map[]
  }

  /** `slot` is absent, falsy, or a plain object that properties can be added to. */
  predicate Usable(tempObj: map<string, Value>, slot: string) {
    slot in tempObj && Truthy(tempObj[slot]) ==> tempObj[slot].Obj?
  }

  /** The properties visited so far that go under `analyst`. */
  function AnalystPart(props: map<string, Value>, visited: set<string>): map<string, Value> {
    map k | k in props && k in visited && k != "datasetName" :: props[k]
  }

  lemma AnalystPartGrows(props: map<string, Value>, visited: set<string>, name: string)
    requires name in props && name != "datasetName"
    ensures AnalystPart(props, visited + {name}) == AnalystPart(props, visited)[name := props[name]]
  {
  }

  /** Keys of `tempObj` other than the two slots keep their values. */
  ghost predicate OthersKept(r: map<string, Value>, tempObj: map<string, Value>) {
    forall k :: k != "input" && k != "analyst" ==>
      (k in r <==> k in tempObj) && (k in tempObj ==> r[k] == tempObj[k])
  }

  /** `slot` holds `Obj(Target(tempObj, slot) + added)` once something was
      added to it, and is untouched before. */
  ghost predicate SlotState(r: map<string, Value>, tempObj: map<string, Value>, slot: string, added: map<string, Value>)
    requires Usable(tempObj, slot)
  {
    if added == map[] then (slot in r <==> slot in tempObj) && (slot in tempObj ==> r[slot] == tempObj[slot])
    else slot in r && r[slot] == Obj(Target(tempObj, slot) + added)
  }

  /** One step of the copy: the slot's record is reused when it is a truthy
      object and replaced by an empty one otherwise, then `name` is set to
      `v` in it. */
  function AddTo(r: map<string, Value>, slot: string, name: string, v: Value): map<string, Value> {
    var target := if slot in r && Truthy(r[slot]) && r[slot].Obj? then r[slot].fields else map[];
    r[slot := Obj(target[name := v])]
  }

  /** Adding under one slot extends that slot's record and leaves the
      other slot and every other key alone. */
  lemma AddToStep(r: map<string, Value>, tempObj: map<string, Value>, slot: string, other: string,
                  added: map<string, Value>, otherAdded: map<string, Value>, name: string, v: Value)
    requires {slot, other} == {"input", "analyst"}
    requires Usable(tempObj, slot) && Usable(tempObj, other)
    requires SlotState(r, tempObj, slot, added) && SlotState(r, tempObj, other, otherAdded)
    requires OthersKept(r, tempObj)
    ensures var r' := AddTo(r, slot, name, v);
            SlotState(r', tempObj, slot, added[name := v]) && SlotState(r', tempObj, other, otherAdded) &&
            OthersKept(r', tempObj)
  {
    assert name in added[name := v];
    assert Target(tempObj, slot) + added[name := v] == (Target(tempObj, slot) + added)[name := v];
  }

  /** `toObject`: visits every property of the parameter. `datasetName` is
      written under `tempObj.input`, every other property under
      `tempObj.analyst`, each with its value; an existing truthy `input` or
      `analyst` object is added to rather than replaced, and no other key of
      `tempObj` changes. */
  method ToObject(param: JobParameter, tempObj: map<string, Value>) returns (r: map<string, Value>)
    requires Usable(tempObj, "input") && Usable(tempObj, "analyst")
    ensures r.Keys == tempObj.Keys + {"input", "analyst"}
    ensures forall k :: k in tempObj && k != "input" && k != "analyst" ==> r[k] == tempObj[k]
    ensures r["input"] == Obj(Target(tempObj, "input")["datasetName" := Properties(param)["datasetName"]])
    ensures r["analyst"] == Obj(Target(tempObj, "analyst") + (Properties(param) - {"datasetName"}))
    ensures forall k :: k in Properties(param) && k != "datasetName" ==>
              k in r["analyst"].fields && r["analyst"].fields[k] == Properties(param)[k]
    ensures "datasetName" !in Target(tempObj, "analyst") ==> "datasetName" !in r["analyst"].fields
  {
    PrototypeKeys(param);
    r := VisitAll(Properties(param), tempObj);
    FinalState(r, tempObj, Properties(param));
  }

  /** The `for…in` loop of `toObject` over the properties `props`, in
      whatever order they are enumerated: afterwards every property has
      been visited. */
  method VisitAll(props: map<string, Value>, tempObj: map<string, Value>) returns (r: map<string, Value>)
    requires Usable(tempObj, "input") && Usable(tempObj, "analyst")
    ensures Visited(r, tempObj, props, props.Keys)
  {
    var pending := props.Keys;
    r := tempObj;
    VisitedNothing(tempObj, props);
    while pending != {}
      invariant pending <= props.Keys
      invariant Visited(r, tempObj, props, props.Keys - pending)
      decreases pending
    {
      var name :| name in pending;
      VisitStep(r, tempObj, props, pending, name);
      r := Visit(r, props, name);
      pending := pending - {name};
    }
  }

  /** One turn of the `for…in` loop of `toObject`. */
  function Visit(r: map<string, Value>, props: map<string, Value>, name: string): map<string, Value>
    requires name in props
  {
    if name == "datasetName" then AddTo(r, "input", name, props[name]) else AddTo(r, "analyst", name, props[name])
  }

  /** The state of `tempObj` after visiting the properties in `visited`. */
  ghost predicate Visited(r: map<string, Value>, tempObj: map<string, Value>, props: map<string, Value>, visited: set<string>)
  {
    && Usable(tempObj, "input") && Usable(tempObj, "analyst")
    && OthersKept(r, tempObj)
    && SlotState(r, tempObj, "input",
         if "datasetName" in visited && "datasetName" in props then map["datasetName" := props["datasetName"]] else map[])
    && SlotState(r, tempObj, "analyst", AnalystPart(props, visited))
  }

  lemma VisitedNothing(tempObj: map<string, Value>, props: map<string, Value>)
    requires Usable(tempObj, "input") && Usable(tempObj, "analyst")
    ensures Visited(tempObj, tempObj, props, {})
  {
    assert AnalystPart(props, {}) == map[];
  }

  lemma VisitStep(r: map<string, Value>, tempObj: map<string, Value>, props: map<string, Value>,
                  pending: set<string>, name: string)
    requires pending <= props.Keys && name in pending
    requires Visited(r, tempObj, props, props.Keys - pending)
    ensures Visited(Visit(r, props, name), tempObj, props, props.Keys - (pending - {name}))
  {
    var visited := props.Keys - pending;
    assert props.Keys - (pending - {name}) == visited + {name};
    var inputAdded := if "datasetName" in visited && "datasetName" in props then map["datasetName" := props["datasetName"]] else map[];
    if name == "datasetName" {
      AddToStep(r, tempObj, "input", "analyst", inputAdded, AnalystPart(props, visited), name, props[name]);
      assert AnalystPart(props, visited + {name}) == AnalystPart(props, visited);
    } else {
      AddToStep(r, tempObj, "analyst", "input", AnalystPart(props, visited), inputAdded, name, props[name]);
      AnalystPartGrows(props, visited, name);
    }
  }

  /** Once every property is visited, the slots hold their final contents. */
  lemma FinalState(r: map<string, Value>, tempObj: map<string, Value>, props: map<string, Value>)
    requires Usable(tempObj, "input") && Usable(tempObj, "analyst")
    requires "datasetName" in props && "query" in props
    requires Visited(r, tempObj, props, props.Keys)
    ensures r.Keys == tempObj.Keys + {"input", "analyst"}
    ensures forall k :: k in tempObj && k != "input" && k != "analyst" ==> r[k] == tempObj[k]
    ensures r["input"] == Obj(Target(tempObj, "input")["datasetName" := props["datasetName"]])
    ensures r["analyst"] == Obj(Target(tempObj, "analyst") + (props - {"datasetName"}))
    ensures forall k :: k in props && k != "datasetName" ==>
              k in r["analyst"].fields && r["analyst"].fields[k] == props[k]
    ensures "datasetName" !in Target(tempObj, "analyst") ==> "datasetName" !in r["analyst"].fields
  {
    var inputAdded := map["datasetName" := props["datasetName"]];
    assert "datasetName" in inputAdded;
    assert SlotState(r, tempObj, "input", inputAdded);
    assert r["input"] == Obj(Target(tempObj, "input") + inputAdded);
    assert Target(tempObj, "input") + inputAdded == Target(tempObj, "input")["datasetName" := props["datasetName"]];
    var analystAdded := AnalystPart(props, props.Keys);
    assert "query" in analystAdded;
    assert analystAdded == props - {"datasetName"};
    assert r["analyst"] == Obj(Target(tempObj, "analyst") + analystAdded);
    assert forall k :: k in r.Keys <==> k in tempObj.Keys + {"input", "analyst"};
  }

  /** After `destroy`, a fresh `toObject` sends a null dataset name under
      `input` and nulls for the other nine data properties under `analyst`. */
  method ToObjectAfterDestroy(param: JobParameter) returns (r: map<string, Value>)
    ensures "input" in r && r["input"] == Obj(map["datasetName" := Null])
    ensures "analyst" in r && r["analyst"].Obj?
    ensures forall k :: k in DataFields && k != "datasetName" ==>
              k in r["analyst"].fields && r["analyst"].fields[k] == Null
  {
    r := ToObject(Destroy(param), map[]);
  }
}
