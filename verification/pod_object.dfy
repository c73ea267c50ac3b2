/**
 * The `PodsObject_Pod` class: a Pod definition held in `$this->_object`, loaded by `init`
 * and changed by `save`, `duplicate` and `delete`, with a memoised table-info cache.
 * WordPress is a `Host` snapshot; each call into `pods_api()` is appended to the ghost
 * `apiLog`, and what the call answers is a parameter of the method that makes it.
 */
module PodObject {
  import opened Php
  import opened WpHost
  import opened PodResolver

  /** A value that is not an array: what `! is_array( $options )` lets through. */
  type Scalar = v: Value | !v.VArr? witness VNull

  /** The `$options` argument of `save` and `duplicate`: an array of options, or a single option name. */
  datatype OptionsArg = OptionArray(m: map<string, Value>) | OptionName(key: Scalar)

  /**
   * Lines 397-401: a single name, or any options together with a value, become `array( $options => $value )`;
   * an array of options used as that key is an illegal offset and leaves the array empty.
   */
  function SaveOptions(options: OptionsArg, value: Value): (m: map<string, Value>)
    ensures options.OptionArray? && value == VNull ==> m == options.m
    ensures options.OptionArray? && value != VNull ==> m == map[]
    ensures options.OptionName? ==> m == map[ArrayKey(options.key).value := value]
  {
    match options
    case OptionArray(a) => if value == VNull then a else map[]
    case OptionName(k) => map[ArrayKey(k).value := value]
  }

  /** The options `duplicate` goes on with, an early answer, or a fatal error. */
  datatype DuplicateStep = Proceed(m: map<string, Value>) | ReturnId | Fails

  /**
   * Lines 448-456: only a single name WITH a value is wrapped (`&&`, where `save` has `||`). A bare
   * name stays a scalar: an empty one answers the current id, and the array writes on any other are
   * taken as a fatal error.
   */
  function DuplicateOptions(options: OptionsArg, value: Value): (d: DuplicateStep)
    ensures options.OptionArray? ==> (d == ReturnId <==> options.m == map[])
    ensures options.OptionArray? && options.m != map[] ==> d == Proceed(options.m)
    ensures options.OptionName? && value != VNull ==> d == Proceed(map[ArrayKey(options.key).value := value])
    ensures options.OptionName? && value == VNull ==> (d == ReturnId <==> Empty(options.key))
  {
    match options
    case OptionArray(a) => if a == map[] then ReturnId else Proceed(a)
    case OptionName(k) =>
      if value != VNull then Proceed(map[ArrayKey(k).value := value])
      else if Empty(k) then ReturnId
      else Fails
  }

  /** Line 421: `'id' != $option` under PHP 7, where the integer key 0 also equals 'id'. */
  predicate SkippedOption(k: string)
  {
    k == "id" || k == "0"
  }

  /** What a `save` without refresh writes: every option except those equal to 'id'. */
  function Written(params: map<string, Value>): (w: map<string, Value>)
    ensures forall k :: k in w <==> k in params && !SkippedOption(k)
    ensures forall k :: k in w ==> w[k] == params[k]
  {
    map k | k in params && !SkippedOption(k) :: params[k]
  }

  /** Writing one more pending option extends what has been written by that option alone. */
  lemma WrittenStep(params: map<string, Value>, pending: set<string>, option: string)
    requires option in pending && pending <= params.Keys
    ensures !SkippedOption(option) ==> Written(params - (pending - {option})) == Written(params - pending)[option := params[option]]
    ensures SkippedOption(option) ==> Written(params - (pending - {option})) == Written(params - pending)
  {
  }

  /** The `$params` sent to `delete_pod`: the id and name of the object. */
  function DeleteParams(obj: map<string, Value>): (p: map<string, Value>)
    ensures p.Keys == {"id", "name"} && p["id"] == Get(obj, "id") && p["name"] == Get(obj, "name")
  {
    map["id" := Get(obj, "id"), "name" := Get(obj, "name")]
  }

  /** Lines 264-295: `array_merge( $defaults, $object )`, then an empty label takes the name and an empty singular label the label. */
  method Merge(fields: map<string, Value>, parentId: int) returns (def: map<string, Value>)
    ensures def == Normalise(fields, parentId)
  {
    def := Defaults(parentId) + fields;
    if StrlenZero(def["label"]) {
      def := def["label" := def["name"]];
    }
    if StrlenZero(def["label_singular"]) {
      def := def["label_singular" := def["label"]];
    }
  }

  /** Lines 297-321: for an id above 0, the stored meta values override the five meta keys, then empty kinds are reset. */
  method MetaOverrides(h: Host, def: map<string, Value>) returns (r: map<string, Value>)
    requires "id" in def
    ensures r == WithMeta(def, h)
  {
    r := def;
    if IsPositive(def["id"]) {
      r := ReadMeta(h, def, ToInt(def["id"]), MetaKeys);
      ghost var applied := r;
      if Empty(Get(r, "type")) {
        r := r["type" := VStr("post_type")];
      }
      if Empty(Get(r, "storage")) {
        r := r["storage" := VStr("meta")];
      }
      assert r == ResetEmptyKinds(applied);
    }
  }

  /** Lines 306-312: the loop over the meta keys, in order, keeping every non-null stored value. */
  method ReadMeta(h: Host, def: map<string, Value>, id: int, keys: seq<string>) returns (r: map<string, Value>)
    ensures r == ApplyMeta(def, h, id, keys)
  {
    r := def;
    for k := 0 to |keys|
      invariant r == ApplyMeta(def, h, id, keys[..k])
    {
      var value := MetaOf(h, id, keys[k]);
      if value != VNull {
        r := r[keys[k] := value];
      }
      assert keys[..k + 1][..k] == keys[..k];
    }
    assert keys[..|keys|] == keys;
  }

  /** Lines 52-54: `init` answered an id above 0, so a live object may be kept live. */
  predicate FoundLive(r: Reply)
  {
    r.Returned? && IsPositive(r.v)
  }

  class PodsObjectPod {
    /** `$this->_object`: the Pod definition. */
    var obj: map<string, Value>
    /** What the parent class's `is_valid()` answers: whether a definition is loaded. */
    var valid: bool
    /** `$this->_live`. */
    var live: bool
    /** `$this->_table_info`. */
    var tableInfo: Value
    /** The calls made into `pods_api()`, oldest first. */
    ghost var apiLog: seq<ApiCall>

    function State(): PodState
      reads this`obj, this`valid
    {
      PodState(obj, valid)
    }

    /**
     * Lines 53-58: the object is initialised from its arguments, and `live` is taken only when
     * `init` answers an id above 0.
     */
    constructor(h: Host, name: NameArg, id: Value, liveArg: bool, parent: ParentArg)
      ensures var (st, answer) := InitSpec(h, Destroyed, name, id, parent);
        State() == st && live == (liveArg && FoundLive(answer))
      ensures tableInfo == VArr([]) && apiLog == []
    {
      obj := map[];
      valid := false;
      new;
      var r := Init(h, name, id, parent);
      live := liveArg && FoundLive(r);
      tableInfo := VArr([]);
      apiLog := [];
    }

    /** The parent class's `destroy()`: the definition is dropped and the object is no longer valid. */
    method Destroy()
      modifies this`obj, this`valid
      ensures State() == Destroyed
    {
      obj := map[];
      valid := false;
    }

    /** Lines 69-330: `init( $name, $id, $parent )`. */
    method Init(h: Host, name: NameArg, id: Value, parent: ParentArg) returns (r: Reply)
      modifies this`obj, this`valid
      ensures (State(), r) == InitSpec(h, old(State()), name, id, parent)
      decreases InitMeasure(State(), id)
    {
      ghost var before := State();
      var objectId := id;
      if IsRefresh(State(), name, id, parent) {
        objectId := Get(obj, "id");
        Destroy();
      }
      var parentId := ParentIdOf(parent);
      var candidate: Candidate;
      if IsPositive(objectId) {
        var step := IdLookup(h, objectId);
        if step.ByNameInstead? {
          PositiveIsNotZero(id);
          assert InitSpec(h, before, name, id, parent) == InitSpec(h, State(), name, VInt(0), NoParent);
          r := Init(h, name, VInt(0), NoParent);
          return;
        }
        candidate := Post(step.post);
      } else {
        candidate := SelectCandidate(h, name, parentId);
      }
      assert InitSpec(h, before, name, id, parent) == Settle(State(), Definition(candidate, h, parentId));
      r := Resolve(h, candidate, parentId);
    }

    /** Lines 263-330: a non-empty candidate is merged over the defaults, labelled, given its meta and kept. */
    method Resolve(h: Host, c: Candidate, parentId: int) returns (r: Reply)
      modifies this`obj, this`valid
      ensures (State(), r) == Settle(old(State()), Definition(c, h, parentId))
    {
      if c.Crash? {
        return Aborted;
      }
      if c.Nothing? || (c.Array? && c.fields == map[]) {
        return Returned(False);
      }
      ResolvedCandidate(c, h, parentId);
      var def := Merge(CandidateFields(c), parentId);
      def := MetaOverrides(h, def);
      obj := def;
      valid := true;
      r := Returned(Get(obj, "id"));
    }

    /**
     * Lines 391-429: `save( $options, $value, $refresh )`. The options are sent with the current id;
     * `saved` is what `save_pod` answers. With `refresh` the object is reloaded by that answer,
     * otherwise every option not equal to 'id' is written into the definition.
     */
    method Save(h: Host, options: OptionsArg, value: Value, refresh: bool, saved: Value) returns (r: Reply)
      modifies this`obj, this`valid, this`apiLog
      ensures !old(valid) ==> r == Returned(False) && State() == old(State()) && apiLog == old(apiLog)
      ensures old(valid) && SaveOptions(options, value) == map[] ==>
        r == Returned(Get(old(obj), "id")) && State() == old(State()) && apiLog == old(apiLog)
      ensures old(valid) && SaveOptions(options, value) != map[] ==>
        var params := SaveOptions(options, value)["id" := Get(old(obj), "id")];
        && apiLog == old(apiLog) + [SavePod(params)]
        && (refresh ==> (State(), r) == InitSpec(h, old(State()), NoName, saved, NoParent))
        && (!refresh ==> r == Returned(saved) && valid && obj == old(obj) + Written(params))
    {
      if !valid {
        return Returned(False);
      }
      var opts := SaveOptions(options, value);
      if opts == map[] {
        return Returned(Get(obj, "id"));
      }
      var params := opts["id" := Get(obj, "id")];
      apiLog := apiLog + [SavePod(params)];
      if refresh {
        r := Init(h, NoName, saved, NoParent);
      } else {
        WriteOptions(params);
        r := Returned(saved);
      }
    }

    /** Lines 420-424: every option not equal to 'id' is written with `offsetSet`, in any order (the keys are distinct). */
    method WriteOptions(params: map<string, Value>)
      modifies this`obj
      ensures obj == old(obj) + Written(params)
    {
      var pending := params.Keys;
      while pending != {}
        invariant pending <= params.Keys
        invariant obj == old(obj) + Written(params - pending)
        decreases pending
      {
        var option :| option in pending;
        WrittenStep(params, pending, option);
        if !SkippedOption(option) {
          OffsetSet(option, params[option]);
        }
        pending := pending - {option};
      }
      assert params - {} == params;
    }

    /** The parent class's `offsetSet()`: the option is written into the definition. */
    method OffsetSet(option: string, v: Value)
      modifies this`obj
      ensures obj == old(obj)[option := v]
    {
      obj := obj[option := v];
    }

    /**
     * Lines 442-473: `duplicate( $options, $value, $replace )`. The options are sent with the current
     * id and name; `duplicated` is what `duplicate_pod` answers, and with `replace` the object is
     * reloaded by it.
     */
    method Duplicate(h: Host, options: OptionsArg, value: Value, replace: bool, duplicated: Value) returns (r: Reply)
      modifies this`obj, this`valid, this`apiLog
      ensures !old(valid) ==> r == Returned(False) && State() == old(State()) && apiLog == old(apiLog)
      ensures old(valid) && DuplicateOptions(options, value).ReturnId? ==>
        r == Returned(Get(old(obj), "id")) && State() == old(State()) && apiLog == old(apiLog)
      ensures old(valid) && DuplicateOptions(options, value).Fails? ==>
        r == Aborted && State() == old(State()) && apiLog == old(apiLog)
      ensures old(valid) && DuplicateOptions(options, value).Proceed? ==>
        var params := DuplicateOptions(options, value).m["id" := Get(old(obj), "id")]["name" := Get(old(obj), "name")];
        && apiLog == old(apiLog) + [DuplicatePod(params)]
        && (replace ==> (State(), r) == InitSpec(h, old(State()), NoName, duplicated, NoParent))
        && (!replace ==> r == Returned(duplicated) && State() == old(State()))
    {
      if !valid {
        return Returned(False);
      }
      match DuplicateOptions(options, value)
      case ReturnId =>
        return Returned(Get(obj, "id"));
      case Fails =>
        return Aborted;
      case Proceed(opts) =>
        var params := opts["id" := Get(obj, "id")]["name" := Get(obj, "name")];
        apiLog := apiLog + [DuplicatePod(params)];
        if replace {
          r := Init(h, NoName, duplicated, NoParent);
        } else {
          r := Returned(duplicated);
        }
    }

    /**
     * Lines 482-501: `delete()`. `delete_pod` is called, answering `deleted`, only for an id above 0;
     * the object is destroyed either way.
     */
    method Delete(deleted: Value) returns (r: Value)
      modifies this`obj, this`valid, this`apiLog
      ensures IsPositive(Get(old(obj), "id")) ==> r == deleted && apiLog == old(apiLog) + [DeletePod(DeleteParams(old(obj)))]
      ensures !IsPositive(Get(old(obj), "id")) ==> r == False && apiLog == old(apiLog)
      ensures State() == Destroyed
    {
      var params := DeleteParams(obj);
      r := False;
      if IsPositive(params["id"]) {
        apiLog := apiLog + [DeletePod(params)];
        r := deleted;
      }
      Destroy();
    }

    /**
     * Lines 366-378: `table_info()`. An invalid object answers an empty array; otherwise the cache is
     * filled from `get_table_info` (answering `fetched`) only while it is empty, and then answered.
     */
    method TableInfo(fetched: Value) returns (r: Value)
      modifies this`tableInfo, this`apiLog
      ensures !valid ==> r == VArr([]) && tableInfo == old(tableInfo) && apiLog == old(apiLog)
      ensures valid && !Empty(old(tableInfo)) ==> r == old(tableInfo) && tableInfo == old(tableInfo) && apiLog == old(apiLog)
      ensures valid && Empty(old(tableInfo)) ==>
        r == fetched && tableInfo == fetched
        && apiLog == old(apiLog) + [GetTableInfo(Get(obj, "type"), Get(obj, "object"), Get(obj, "name"), obj)]
    {
      if !valid {
        return VArr([]);
      }
      if Empty(tableInfo) {
        apiLog := apiLog + [GetTableInfo(Get(obj, "type"), Get(obj, "object"), Get(obj, "name"), obj)];
        tableInfo := fetched;
      }
      r := tableInfo;
    }

    /** The `table_info_clear` hook: the cache is emptied. */
    method TableInfoClear()
      modifies this`tableInfo
      ensures Empty(tableInfo)
    {
      tableInfo := VArr([]);
    }

    /**
     * Lines 343-359: `object_fields( $object_field, $option )`. Only while no 'fields' key is set
     * (not 'object_fields'): a custom Pod stores what `pods_object_field` gives for each of its
     * '_object_fields' in turn, each overwriting the last; any other Pod stores
     * `get_wp_object_fields` (answering `wpFields`). The answer is what the parent class's
     * `_fields( 'object_fields', $object_field, $option )` reads from the definition then held,
     * given here as `fieldsOf`.
     */
    method ObjectFields(objectFieldArg: Value, option: Value, isCustom: bool,
                        objectField: (Value, Value, bool) -> Value, wpFields: Value,
                        fieldsOf: (map<string, Value>, Value, Value) -> Value) returns (r: Value)
      modifies this`obj, this`apiLog
      ensures Get(old(obj), "fields") != VNull ==> obj == old(obj) && apiLog == old(apiLog)
      ensures Get(old(obj), "fields") == VNull && !isCustom ==>
        obj == old(obj)["object_fields" := wpFields]
        && apiLog == old(apiLog) + [GetWpObjectFields(Get(old(obj), "type"), old(obj))]
      ensures Get(old(obj), "fields") == VNull && isCustom ==> apiLog == old(apiLog)
      ensures Get(old(obj), "fields") == VNull && isCustom ==>
        var stored := Get(old(obj), "_object_fields");
        if !Empty(stored) && stored.VArr? then
          obj == old(obj)["object_fields" := objectField(Get(old(obj), "id"), stored.entries[|stored.entries| - 1].1, live)]
        else obj == old(obj)
      ensures r == fieldsOf(obj, objectFieldArg, option)
    {
      if Get(obj, "fields") == VNull {
        if isCustom {
          var stored := Get(obj, "_object_fields");
          if !Empty(stored) && stored.VArr? {
            for i := 0 to |stored.entries|
              invariant i > 0 ==> obj == old(obj)["object_fields" := objectField(Get(old(obj), "id"), stored.entries[i - 1].1, live)]
              invariant i == 0 ==> obj == old(obj)
              invariant apiLog == old(apiLog)
            {
              obj := obj["object_fields" := objectField(Get(obj, "id"), stored.entries[i].1, live)];
            }
          }
        } else {
          apiLog := apiLog + [GetWpObjectFields(Get(obj, "type"), obj)];
          obj := obj["object_fields" := wpFields];
        }
      }
      r := fieldsOf(obj, objectFieldArg, option);
    }
  }
}
