/**
 * The pieces of the Java platform that the event store relies on: class
 * identities, class loading by name, stream identifiers, and the exceptions
 * that the store and its collaborators raise.
 */
module Platform {
  import opened Wrappers

  /** What Class.toString() distinguishes: an interface (annotations included), a primitive type, or any other class. */
  datatype ClassKind = OrdinaryClass | Interface | Primitive

  /** A loaded Java class, identified by its fully-qualified name (Class.getName()) and its kind. */
  datatype JClass = JClass(name: string, kind: ClassKind)

  /** String.class, the text payload representation. */
  const STRING_CLASS := JClass("java.lang.String", OrdinaryClass)

  /** byte[].class, the binary payload representation; Class.getName() of byte[] is "[B", and an array is a class. */
  const BYTE_ARRAY_CLASS := JClass("[B", OrdinaryClass)

  /** Class.toString(): "interface " or "class " before the name, and the bare name for a primitive type. */
  function ClassToString(c: JClass): (s: string)
    ensures c.kind == Interface ==> s == "interface " + c.name
    ensures c.kind == OrdinaryClass ==> s == "class " + c.name
    ensures c.kind == Primitive ==> s == c.name
  {
    match c.kind
    case Interface => "interface " + c.name
    case Primitive => c.name
    case OrdinaryClass => "class " + c.name
  }

  /**
   * What Class.forName can find: fully-qualified name to class. A loader is
   * well formed when every class it finds carries the name it was found under.
   */
  type ClassLoader = map<string, JClass>

  ghost predicate WellFormedLoader(loader: ClassLoader)
  {
    forall n :: n in loader ==> loader[n].name == n
  }

  /** The loader finds `c` itself under its name. */
  ghost predicate Loads(loader: ClassLoader, c: JClass)
  {
    c.name in loader && loader[c.name] == c
  }

  /** Class.forName: the class of that name, or ClassNotFoundException. */
  function ClassForName(loader: ClassLoader, name: string): (r: Result<JClass, Failure>)
    requires WellFormedLoader(loader)
    ensures r.Success? <==> name in loader
    ensures r.Success? ==> r.value == loader[name] && r.value.name == name
    ensures r.Failure? ==> r.error == ClassNotFound(name)
  {
    if name in loader then Success(loader[name]) else Failure(ClassNotFound(name))
  }

  /** java.util.UUID: two 64-bit halves. */
  datatype Uuid = Uuid(mostSignificantBits: int, leastSignificantBits: int)

  /**
   * The exceptions that cross the core's boundaries. A constructor that takes
   * a cause models an exception that wraps another one.
   */
  datatype Failure =
    | BrokenStore(cause: Failure)                   // BrokenStoreException(Throwable)
    | BrokenStoreMessage(message: string)           // BrokenStoreException(String)
    | VersionMismatch(expected: int, actual: int)   // VersionMismatchException
    | Serialization(cause: Failure)                 // SerializationException(Throwable)
    | IllegalArgument(message: string)              // IllegalArgumentException
    | NullPointer(detail: Option<string>)           // NullPointerException from Objects.requireNonNull
    | ClassNotFound(className: string)              // ClassNotFoundException from Class.forName
    | Io(message: string)                           // IOException raised while reading or writing JSON
    | Sql(message: string)                          // SQLException raised by the driver
    | Unchecked(message: string)                    // any other RuntimeException of a collaborator
}
