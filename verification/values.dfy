/**
 The input of the serializer: JavaScript values as a heap of containers.
 Arrays and plain objects are the only values with identity, so they live in
 a heap under an `Id`, and a `Ref` to them is what a parent holds; this is
 what makes shared and cyclic structures expressible.
 */
module Values {
  import opened Literals

  type Id = nat

  datatype Value =
    | Null
    | Bool(b: bool)
    | Num(n: SafeInteger)
    | Str(s: string)
    | Symbol
    | Undefined
    | Ref(id: Id)

  /** An array, or an object with its own enumerable string keys in
      `Object.keys` order. */
  datatype Container =
    | Arr(items: seq<Value>)
    | Obj(entries: seq<(string, Value)>)

  type Heap = map<Id, Container>

  predicate Bound(h: Heap, v: Value) {
    v.Ref? ==> v.id in h
  }

  predicate AllBound(h: Heap, vs: seq<Value>) {
    forall i :: 0 <= i < |vs| ==> Bound(h, vs[i])
  }

  predicate EntriesBound(h: Heap, es: seq<(string, Value)>) {
    forall i :: 0 <= i < |es| ==> Bound(h, es[i].1)
  }

  predicate ContainerBound(h: Heap, c: Container) {
    match c
    case Arr(items) => AllBound(h, items)
    case Obj(entries) => EntriesBound(h, entries)
  }

  /** Every reference held in the heap resolves, as JavaScript references do. */
  predicate Closed(h: Heap) {
    forall id :: id in h ==> ContainerBound(h, h[id])
  }

  /** `c` holds the container `id` as an array element or a property value. */
  predicate Holds(c: Container, id: Id) {
    match c
    case Arr(items) => Ref(id) in items
    case Obj(entries) => exists i :: 0 <= i < |entries| && entries[i].1 == Ref(id)
  }

  /** A chain of containers, each held by the one before it. */
  ghost predicate IsPath(h: Heap, p: seq<Id>) {
    && |p| > 0
    && (forall i :: 0 <= i < |p| ==> p[i] in h)
    && (forall i :: 0 < i < |p| ==> Holds(h[p[i - 1]], p[i]))
  }

  /** From `id` there is a chain of containers that ends on one of `stack`
      or on a container it already passed. */
  ghost predicate ReachesStack(h: Heap, id: Id, stack: seq<Id>) {
    exists p :: IsPath(h, p) && p[0] == id && p[|p| - 1] in stack + p[..|p| - 1]
  }

  /** From `id` a cycle of containment can be reached. */
  ghost predicate CyclicFrom(h: Heap, id: Id) {
    exists p :: IsPath(h, p) && p[0] == id && p[|p| - 1] in p[..|p| - 1]
  }

  /** The containers not yet entered: the measure that makes every
      traversal with a path set finite, cyclic heap or not. */
  lemma FewerUnentered(keys: set<Id>, entered: set<Id>, id: Id)
    requires id in keys && id !in entered
    ensures |keys - (entered + {id})| < |keys - entered|
  {
    assert keys - entered == (keys - (entered + {id})) + {id};
  }
}
