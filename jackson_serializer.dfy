/**
 * The JSON serializer's type discriminator: a value's "@type" id is the alias
 * registered for its class or else the fully-qualified class name, and an id is
 * turned back into a type by the inverse alias map or else by class-name
 * resolution, through a cache of constructed types that only grows. The
 * object mapper itself is abstract: an encode or decode that yields a value,
 * an IO error or an unchecked error.
 */
module JacksonSerializer {
  import opened Wrappers
  import opened Platform

  /** A runtime object; only its class takes part in type ids. */
  datatype Instance = Instance(runtimeClass: JClass)

  /** The type id written for class `c`: its alias when one is registered, its name otherwise. */
  function TypeId(serializationAliases: map<JClass, string>, c: JClass): (id: string)
    ensures c in serializationAliases ==> id == serializationAliases[c]
    ensures c !in serializationAliases ==> id == c.name
  {
    if c in serializationAliases then serializationAliases[c] else c.name
  }

  /**
   * The class an id stands for: the class registered under it as an alias, and
   * only when there is none, the class the loader finds by that name.
   */
  function ResolveClass(deserializationAliases: map<string, JClass>, loader: ClassLoader, id: string): (r: Result<JClass, Failure>)
    requires WellFormedLoader(loader)
    ensures id in deserializationAliases ==> r == Success(deserializationAliases[id])
    ensures id !in deserializationAliases ==>
      && (r.Success? <==> id in loader)
      && (r.Success? ==> r.value == loader[id] && r.value.name == id)
      && (r.Failure? ==> r.error == ClassNotFound(id))
  {
    if id in deserializationAliases then Success(deserializationAliases[id])
    else ClassForName(loader, id)
  }

  /** The two alias maps describe one bijection between classes and aliases. */
  ghost predicate AliasesInverse(serializationAliases: map<JClass, string>, deserializationAliases: map<string, JClass>)
  {
    && (forall c :: c in serializationAliases ==>
          serializationAliases[c] in deserializationAliases && deserializationAliases[serializationAliases[c]] == c)
    && (forall id :: id in deserializationAliases ==>
          deserializationAliases[id] in serializationAliases && serializationAliases[deserializationAliases[id]] == id)
  }

  /**
   * Round trip of type ids: with inverse alias maps, the id written for `c`
   * resolves back to `c` when `c` has an alias, or when its name is not taken
   * by some other class's alias and the loader finds `c` under that name.
   */
  lemma TypeIdRoundTrip(ser: map<JClass, string>, deser: map<string, JClass>, loader: ClassLoader, c: JClass)
    requires AliasesInverse(ser, deser) && WellFormedLoader(loader)
    requires c in ser || (c.name !in deser && Loads(loader, c))
    ensures ResolveClass(deser, loader, TypeId(ser, c)) == Success(c)
  {
  }

  /** An alias that equals another class's name hides that class: its id resolves to the aliased class. */
  lemma AliasShadowsClassName(ser: map<JClass, string>, deser: map<string, JClass>, loader: ClassLoader, c: JClass)
    requires AliasesInverse(ser, deser) && WellFormedLoader(loader)
    requires c !in ser && c.name in deser
    ensures ResolveClass(deser, loader, TypeId(ser, c)) == Success(deser[c.name])
    ensures deser[c.name] != c
  {
  }

  /** With the empty maps the serializer configures, a class round-trips exactly when the loader finds it by its name. */
  lemma DefaultRoundTrip(loader: ClassLoader, c: JClass)
    requires WellFormedLoader(loader)
    ensures ResolveClass(map[], loader, TypeId(map[], c)) == Success(c) <==> Loads(loader, c)
  {
    if Loads(loader, c) {
      TypeIdRoundTrip(map[], map[], loader, c);
    }
  }

  /** Jackson's JavaType for a raw class, as the type factory constructs it. */
  class JavaType {
    const rawClass: JClass

    constructor (c: JClass)
      ensures rawClass == c
    {
      rawClass := c;
    }
  }

  /** The custom type-id resolver with its two alias maps and its cache of constructed types. */
  class TypeIdResolver {
    const serializationAliases: map<JClass, string>
    const deserializationAliases: map<string, JClass>
    var typesCache: map<JClass, JavaType>

    /** Each cached type was constructed for the class it is cached under. */
    ghost predicate Valid()
      reads this
    {
      forall c :: c in typesCache ==> typesCache[c].rawClass == c
    }

    /** The default resolver, as the serializer builds it: no aliases, empty cache. */
    constructor Default()
      ensures Valid()
      ensures serializationAliases == map[] && deserializationAliases == map[] && typesCache == map[]
    {
      serializationAliases := map[];
      deserializationAliases := map[];
      typesCache := map[];
    }

    constructor (ser: map<JClass, string>, deser: map<string, JClass>)
      ensures Valid()
      ensures serializationAliases == ser && deserializationAliases == deser && typesCache == map[]
    {
      serializationAliases := ser;
      deserializationAliases := deser;
      typesCache := map[];
    }

    /**
     * The id for a value of the suggested type. A null type fails, since
     * its name is taken when no alias matches.
     */
    function IdFromValueAndType(value: Option<Instance>, suggestedType: Option<JClass>): (r: Result<string, Failure>)
      ensures suggestedType.None? ==> r == Failure(NullPointer(None))
      ensures suggestedType.Some? ==> r == Success(TypeId(serializationAliases, suggestedType.value))
    {
      match suggestedType
      case None => Failure(NullPointer(None))
      case Some(c) => Success(TypeId(serializationAliases, c))
    }

    /** The id for a value: its runtime class's id; a null value fails. */
    function IdFromValue(value: Option<Instance>): (r: Result<string, Failure>)
      ensures value.None? ==> r == Failure(NullPointer(None))
      ensures value.Some? ==> r == IdFromValueAndType(value, Some(value.value.runtimeClass))
      ensures value.Some? ==> r == Success(TypeId(serializationAliases, value.value.runtimeClass))
    {
      IdFromValueAndType(value, if value.Some? then Some(value.value.runtimeClass) else None)
    }

    /**
     * The type for an id: the class is resolved by alias, then by name; its
     * type comes from the cache when present and is constructed and cached
     * otherwise. An unknown class name fails and leaves the cache alone.
     */
    method TypeFromId(loader: ClassLoader, id: string) returns (r: Result<JavaType, Failure>)
      requires Valid() && WellFormedLoader(loader)
      modifies this`typesCache
      ensures Valid()
      ensures r.Success? <==> ResolveClass(deserializationAliases, loader, id).Success?
      ensures r.Failure? ==>
        && r.error == ResolveClass(deserializationAliases, loader, id).error
        && typesCache == old(typesCache)
      ensures r.Success? ==>
        var c := ResolveClass(deserializationAliases, loader, id).value;
        && r.value.rawClass == c
        && typesCache == old(typesCache)[c := r.value]
        && (c in old(typesCache) ==> r.value == old(typesCache)[c])
        && (c !in old(typesCache) ==> fresh(r.value))
    {
      var resolved := ResolveClass(deserializationAliases, loader, id);
      if resolved.Failure? {
        return Failure(resolved.error);
      }
      var c := resolved.value;
      if c in typesCache {
        return Success(typesCache[c]);
      }
      var t := new JavaType(c);
      typesCache := typesCache[c := t];
      return Success(t);
    }
  }

  /** A resolver that was handed a null alias map fails with a null pointer instead. */
  method NewTypeIdResolver(ser: Option<map<JClass, string>>, deser: Option<map<string, JClass>>)
    returns (r: Result<TypeIdResolver, Failure>)
    ensures r.Success? <==> ser.Some? && deser.Some?
    ensures r.Failure? ==> r.error == NullPointer(None)
    ensures r.Success? ==>
      && r.value.Valid()
      && r.value.serializationAliases == ser.value
      && r.value.deserializationAliases == deser.value
      && r.value.typesCache == map[]
  {
    if ser.None? || deser.None? {
      return Failure(NullPointer(None));
    }
    var resolver := new TypeIdResolver(ser.value, deser.value);
    return Success(resolver);
  }

  /** What the object mapper reports for one call. */
  datatype MapperOutcome<V> = Produced(value: V) | IoError(message: string) | RuntimeError(failure: Failure)

  /** serialize: every failure of the mapper becomes a serialization failure carrying its cause. */
  function Serialize<S>(writeValueAsString: S -> MapperOutcome<string>, toSerialize: S): (r: Result<string, Failure>)
    ensures r.Success? <==> writeValueAsString(toSerialize).Produced?
    ensures r.Success? ==> r.value == writeValueAsString(toSerialize).value
    ensures r.Failure? ==> r.error.Serialization?
    ensures writeValueAsString(toSerialize).IoError? ==> r == Failure(Serialization(Io(writeValueAsString(toSerialize).message)))
    ensures writeValueAsString(toSerialize).RuntimeError? ==> r == Failure(Serialization(writeValueAsString(toSerialize).failure))
  {
    match writeValueAsString(toSerialize)
    case Produced(s) => Success(s)
    case IoError(m) => Failure(Serialization(Io(m)))
    case RuntimeError(f) => Failure(Serialization(f))
  }

  /**
   * deserialize: only IO failures become serialization failures; any other
   * failure of the mapper (an unchecked one, or a class-not-found thrown out
   * of type resolution) passes through unchanged.
   */
  function Deserialize<S>(readValue: string -> MapperOutcome<S>, toDeserialize: string): (r: Result<S, Failure>)
    ensures r.Success? <==> readValue(toDeserialize).Produced?
    ensures r.Success? ==> r.value == readValue(toDeserialize).value
    ensures readValue(toDeserialize).IoError? ==> r == Failure(Serialization(Io(readValue(toDeserialize).message)))
    ensures readValue(toDeserialize).RuntimeError? ==> r == Failure(readValue(toDeserialize).failure)
  {
    match readValue(toDeserialize)
    case Produced(v) => Success(v)
    case IoError(m) => Failure(Serialization(Io(m)))
    case RuntimeError(f) => Failure(f)
  }

  /** A mapper whose read undoes its write gives a serializer pair whose deserialize undoes its serialize. */
  lemma SerializerRoundTrip<S>(writeValueAsString: S -> MapperOutcome<string>, readValue: string -> MapperOutcome<S>, x: S)
    requires writeValueAsString(x).Produced?
    requires readValue(writeValueAsString(x).value) == Produced(x)
    ensures Serialize(writeValueAsString, x).Success?
    ensures Deserialize(readValue, Serialize(writeValueAsString, x).value) == Success(x)
  {
  }
}
