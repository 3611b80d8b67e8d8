/**
  The part of Go's reflection that tago.go uses, as explicit descriptors: a
  type is a pointer, a slice, a named struct or some other named type, and a
  struct's declared fields are looked up by name in an environment.
*/
module Types {

  datatype Type =
    | Ptr(elem: Type)
    | Slice(elem: Type)
    | Struct(name: string)
    | Basic(name: string)

  /** One declared struct field: its name, declared type and struct tag. */
  datatype Field = Field(name: string, typ: Type, tag: map<string, string>)

  /** The declared fields of every struct type, in declaration order, by type name. */
  type Env = map<string, seq<Field>>

  /** The TaGo configuration: the tag identifier to read, e.g. "gorm2". */
  datatype TaGo = TaGo(name: string)

  /** StructTag.Get: the raw text under `key`, or "" when the tag has none. */
  function TagGet(f: Field, key: string): string
  {
    if key in f.tag then f.tag[key] else ""
  }

  /** A layer of indirection that typeToElem may remove. */
  datatype Layer = PtrLayer | SliceLayer

  /** `t` wrapped in `layers`, outermost first. */
  function Wrap(layers: seq<Layer>, t: Type): Type
  {
    if layers == [] then t
    else if layers[0] == PtrLayer then Ptr(Wrap(layers[1..], t))
    else Slice(Wrap(layers[1..], t))
  }

  lemma WrapShapes(t: Type)
    ensures Wrap([], t) == t
    ensures Wrap([PtrLayer], t) == Ptr(t)
    ensures Wrap([SliceLayer], t) == Slice(t)
    ensures Wrap([SliceLayer, PtrLayer], t) == Slice(Ptr(t))
    ensures Wrap([PtrLayer, SliceLayer], t) == Ptr(Slice(t))
    ensures Wrap([PtrLayer, SliceLayer, PtrLayer], t) == Ptr(Slice(Ptr(t)))
  {
    assert [SliceLayer, PtrLayer][1..] == [PtrLayer];
    assert [PtrLayer, SliceLayer][1..] == [SliceLayer];
    assert [PtrLayer, SliceLayer, PtrLayer][1..] == [SliceLayer, PtrLayer];
  }

  /** The layer sequences typeToElem removes: an optional pointer, then an optional slice and a pointer inside it. */
  predicate Unwrappable(layers: seq<Layer>)
  {
    layers in {[], [PtrLayer], [SliceLayer], [SliceLayer, PtrLayer],
               [PtrLayer, SliceLayer], [PtrLayer, SliceLayer, PtrLayer]}
  }

  /**
    typeToElem: remove one pointer, then one slice and, inside that slice,
    one pointer.
  */
  function TypeToElem(t: Type): Type
  {
    var t1 := if t.Ptr? then t.elem else t;
    if t1.Slice? then
      var t2 := t1.elem;
      if t2.Ptr? then t2.elem else t2
    else t1
  }

  /** The result of typeToElem is the type with one of the layer sequences above taken off. */
  lemma TypeToElemUnwraps(t: Type)
    ensures exists layers :: Unwrappable(layers) && Wrap(layers, TypeToElem(t)) == t
  {
    var e := TypeToElem(t);
    var layers: seq<Layer>;
    WrapShapes(e);
    if t.Ptr? {
      if t.elem.Slice? {
        layers := if t.elem.elem.Ptr? then [PtrLayer, SliceLayer, PtrLayer] else [PtrLayer, SliceLayer];
      } else {
        layers := [PtrLayer];
      }
    } else if t.Slice? {
      layers := if t.elem.Ptr? then [SliceLayer, PtrLayer] else [SliceLayer];
    } else {
      layers := [];
    }
    assert Unwrappable(layers) && Wrap(layers, e) == t;
  }

  /** The shapes the source supports, `T`, `*T`, `[]T` and `[]*T` (and `*[]T`, `*[]*T`), all reach `T`. */
  lemma TypeToElemOfSupported(layers: seq<Layer>, t: Type)
    requires Unwrappable(layers)
    requires !t.Ptr? && !t.Slice?
    ensures TypeToElem(Wrap(layers, t)) == t
  {
    WrapShapes(t);
  }

  /** Only one layer of each kind is removed: a pointer to a pointer keeps its inner pointer. */
  lemma TypeToElemStopsAfterOneLayer(t: Type)
    ensures TypeToElem(Ptr(Ptr(t))) == Ptr(t)
    ensures TypeToElem(Slice(Slice(t))) == Slice(t)
    ensures TypeToElem(Slice(Ptr(Ptr(t)))) == Ptr(t)
  {
  }

  /** reflect.Type.String: `*T`, `[]T` or the type's name. */
  function TypeString(t: Type): string
  {
    match t
    case Ptr(e) => "*" + TypeString(e)
    case Slice(e) => "[]" + TypeString(e)
    case Struct(n) => n
    case Basic(n) => n
  }

  /**
    Whether getNested recurses into field `f` of the struct `current`: the
    field's unwrapped type is a struct and its type string differs from
    that of the struct being traversed (the self-reference guard).
  */
  predicate Recurses(current: string, f: Field)
  {
    var e := TypeToElem(f.typ);
    TypeString(e) != TypeString(Struct(current)) && e.Struct?
  }

  /** The guard passes exactly for struct fields of another struct type. */
  lemma RecursesIff(current: string, f: Field)
    ensures Recurses(current, f) <==> TypeToElem(f.typ).Struct? && TypeToElem(f.typ).name != current
  {
  }

  /**
    `rank` witnesses that the struct graph of `env` has no cycles other than
    direct self-references: every field getNested recurses into names a
    struct of `env` of lower rank.
  */
  ghost predicate Ranked(env: Env, rank: map<string, nat>)
  {
    forall s {:trigger env[s]} :: s in env ==> (s in rank &&
      forall j :: 0 <= j < |env[s]| && Recurses(s, env[s][j]) ==>
        && TypeToElem(env[s][j].typ).name in env
        && TypeToElem(env[s][j].typ).name in rank
        && rank[TypeToElem(env[s][j].typ).name] < rank[s])
  }
}
