/**
 * The tag-hook registry (moon/hooks/tags/hook.py). Defining a TagHook subclass runs
 * `__init_subclass__`, which validates the class attributes and records the class in
 * two module-level dicts: tag -> hook, read by every load stage through `resolve_tag`,
 * and Python type -> hook, read by the representer through `resolve_representer`.
 *
 * The one hook the package defines is ObjectHook ("@object", for dict). What a hook
 * does is the ObjectHook behaviour, parameterised by the hook's own tag, so a hook is
 * modelled by its class name and its tag.
 */
module TagHooks {
  import opened Wrappers
  import opened Errors
  import opened Schemas

  /** A registered hook class: its name and its (validated) tag. */
  datatype Hook = Hook(cls: string, tag: string)

  /** A Python class attribute value, as far as the validation looks at it. */
  datatype Attr =
    | AStr(s: string)
    | AType(t: PyType)
    | ATuple(elems: seq<Attr>)
    | AOther

  /**
   * A TagHook subclass being defined: its name and its `tag` and `object_type`
   * attributes as Python finds them (inherited ones included); None when absent.
   */
  datatype HookClass = HookClass(name: string, tag: Option<Attr>, objectType: Option<Attr>)

  /** The types a tuple `object_type` maps before its first element that is not a type. */
  function TypePrefix(elems: seq<Attr>): (ts: seq<PyType>)
    ensures |ts| <= |elems|
    ensures forall i :: 0 <= i < |ts| ==> elems[i] == AType(ts[i])
    ensures |ts| < |elems| ==> !elems[|ts|].AType?
  {
    if elems == [] || !elems[0].AType? then [] else [elems[0].t] + TypePrefix(elems[1..])
  }

  /** `m` with each of `ts` mapped to h, in order. */
  function MapAll(m: map<PyType, Hook>, ts: seq<PyType>, h: Hook): (r: map<PyType, Hook>)
    ensures r.Keys == m.Keys + set t | t in ts
    ensures forall t :: t in r ==> r[t] == (if t in ts then h else m[t])
    decreases |ts|
  {
    if ts == [] then m else MapAll(m[ts[0] := h], ts[1..], h)
  }

  /** `_parsing_hooks.get(tag)`. */
  function ResolveTag(parsing: map<string, Hook>, tag: string): (r: Option<Hook>)
    ensures r.Some? <==> tag in parsing
    ensures r.Some? ==> r.value == parsing[tag]
  {
    if tag in parsing then Some(parsing[tag]) else None
  }

  /** `_representing_hooks.get(obj_type)`: an exact-type lookup. */
  function ResolveRepresenter(representing: map<PyType, Hook>, t: PyType): (r: Option<Hook>)
    ensures r.Some? <==> t in representing
    ensures r.Some? ==> r.value == representing[t]
  {
    if t in representing then Some(representing[t]) else None
  }

  /** The tag a class passes validation with, or the error the validation raises. */
  function TagCheck(h: HookClass): (r: Result<string, ErrorKind>)
    ensures r.Ok? ==> h.tag == Some(AStr(r.value)) && |r.value| > 0 && r.value[0] == '@'
  {
    if h.tag.None? then Err(PyAttributeError)
    else if !h.tag.value.AStr? then Err(PyTypeError)
    else if !(|h.tag.value.s| > 0 && h.tag.value.s[0] == '@') then Err(PyAttributeError)
    else Ok(h.tag.value.s)
  }

  /** The tag table's invariant: each hook is filed under its own tag, which starts with '@'. */
  predicate FiledByTag(parsing: map<string, Hook>) {
    forall t :: t in parsing ==> parsing[t].tag == t && |t| > 0 && t[0] == '@'
  }

  class TagRegistry {
    var parsing: map<string, Hook>
    var representing: map<PyType, Hook>

    ghost predicate Valid()
      reads this
    {
      FiledByTag(parsing)
    }

    /** The two dicts before any hook is defined. */
    constructor ()
      ensures Valid() && parsing == map[] && representing == map[]
    {
      parsing := map[];
      representing := map[];
    }

    /**
     * `__init_subclass__`. The tag is validated and filed first; only then is
     * `object_type` looked at, so a class with a bad `object_type` stays resolvable
     * by tag, and a tuple maps its leading types before the bad element is reached.
     */
    method Register(h: HookClass) returns (r: Result<Hook, ErrorKind>)
      requires Valid()
      modifies this
      ensures Valid()
      ensures TagCheck(h).Err? ==>
        r == Err(TagCheck(h).error) && parsing == old(parsing) && representing == old(representing)
      ensures TagCheck(h).Ok? ==>
        var hook := Hook(h.name, TagCheck(h).value);
        && parsing == old(parsing)[hook.tag := hook]
        && (h.objectType.None? ==> r == Err(PyAttributeError) && representing == old(representing))
        && (h.objectType == Some(AOther) || (h.objectType.Some? && h.objectType.value.AStr?) ==>
              r == Err(PyTypeError) && representing == old(representing))
        && (h.objectType.Some? && h.objectType.value.AType? ==>
              r == Ok(hook) && representing == old(representing)[h.objectType.value.t := hook])
        && (h.objectType.Some? && h.objectType.value.ATuple? ==>
              var elems := h.objectType.value.elems;
              var ts := TypePrefix(elems);
              && representing == MapAll(old(representing), ts, hook)
              && r == (if AllTypes(elems) then Ok(hook) else Err(PyTypeError)))
    {
      var tag := TagCheck(h);
      if tag.Err? {
        return Err(tag.error);
      }
      var hook := Hook(h.name, tag.value);
      parsing := parsing[hook.tag := hook];
      if h.objectType.None? {
        return Err(PyAttributeError);
      }
      match h.objectType.value
      case AType(t) =>
        representing := representing[t := hook];
        r := Ok(hook);
      case ATuple(elems) =>
        r := MapTuple(elems, hook);
      case _ =>
        r := Err(PyTypeError);
    }

    /** The loop over a tuple `object_type`: map each type, stop at the first element that is not one. */
    method MapTuple(elems: seq<Attr>, hook: Hook) returns (r: Result<Hook, ErrorKind>)
      modifies this
      ensures parsing == old(parsing)
      ensures representing == MapAll(old(representing), TypePrefix(elems), hook)
      ensures r == (if AllTypes(elems) then Ok(hook) else Err(PyTypeError))
    {
      var k := 0;
      while k < |elems|
        invariant 0 <= k <= |elems| && parsing == old(parsing)
        invariant forall i :: 0 <= i < k ==> elems[i].AType?
        invariant MapAll(old(representing), TypePrefix(elems), hook) == MapAll(representing, TypePrefix(elems[k..]), hook)
      {
        if !elems[k].AType? {
          return Err(PyTypeError);
        }
        MapOneMore(representing, elems[k..], hook);
        assert elems[k..][1..] == elems[k + 1..];
        representing := representing[elems[k].t := hook];
        k := k + 1;
      }
      assert elems[k..] == [];
      r := Ok(hook);
    }
  }

  /** Every element of the tuple is a type, so the whole tuple is mapped. */
  predicate AllTypes(elems: seq<Attr>) {
    forall i :: 0 <= i < |elems| ==> elems[i].AType?
  }

  /** Mapping a tuple that starts with a type maps that type first. */
  lemma MapOneMore(m: map<PyType, Hook>, elems: seq<Attr>, h: Hook)
    requires elems != [] && elems[0].AType?
    ensures MapAll(m, TypePrefix(elems), h) == MapAll(m[elems[0].t := h], TypePrefix(elems[1..]), h)
  {
    var ts := TypePrefix(elems);
    assert ts == [elems[0].t] + TypePrefix(elems[1..]);
    assert ts[0] == elems[0].t && ts[1..] == TypePrefix(elems[1..]);
  }

  /** The mapped prefix is the whole tuple exactly when all of its elements are types. */
  lemma TypePrefixWhole(elems: seq<Attr>)
    ensures |TypePrefix(elems)| == |elems| <==> AllTypes(elems)
  {
  }

  /** ObjectHook: `tag = "@object"`, `object_type = dict`. */
  const ObjectHook := Hook("ObjectHook", "@object")

  const ObjectHookClass := HookClass("ObjectHook", Some(AStr("@object")), Some(AType(DictType)))

  /** The tables after `import moon`: ObjectHook alone. */
  const DefaultTags: map<string, Hook> := map["@object" := ObjectHook]
  const DefaultRepresenters: map<PyType, Hook> := map[DictType := ObjectHook]

  /** Importing the package defines ObjectHook, which fills both tables with it. */
  method Import() returns (reg: TagRegistry)
    ensures fresh(reg) && reg.Valid()
    ensures reg.parsing == DefaultTags && reg.representing == DefaultRepresenters
  {
    reg := new TagRegistry();
    var r := reg.Register(ObjectHookClass);
  }

  /** After registration the tag resolves to the hook; every other tag resolves as before. */
  lemma RegisterThenResolve(parsing: map<string, Hook>, hook: Hook, tag: string)
    ensures ResolveTag(parsing[hook.tag := hook], hook.tag) == Some(hook)
    ensures tag != hook.tag ==> ResolveTag(parsing[hook.tag := hook], tag) == ResolveTag(parsing, tag)
  {
  }

  /** A second class with the same tag replaces the first. */
  lemma SecondRegistrationWins(parsing: map<string, Hook>, first: Hook, second: Hook)
    requires first.tag == second.tag
    ensures ResolveTag(parsing[first.tag := first][second.tag := second], first.tag) == Some(second)
  {
  }

  /** Every type in the valid prefix of a tuple resolves to the hook; types outside it keep their hook. */
  lemma MapAllResolves(m: map<PyType, Hook>, ts: seq<PyType>, h: Hook, t: PyType)
    ensures t in ts ==> ResolveRepresenter(MapAll(m, ts, h), t) == Some(h)
    ensures t !in ts ==> ResolveRepresenter(MapAll(m, ts, h), t) == ResolveRepresenter(m, t)
  {
  }

  /** Only the default tag resolves, and only dict has a representer. */
  lemma DefaultResolution(tag: string, t: PyType)
    ensures ResolveTag(DefaultTags, tag) == (if tag == "@object" then Some(ObjectHook) else None)
    ensures ResolveRepresenter(DefaultRepresenters, t) == (if t == DictType then Some(ObjectHook) else None)
    ensures FiledByTag(DefaultTags)
  {
  }
}
