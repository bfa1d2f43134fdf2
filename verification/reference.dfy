/**
 The whole-document serializer the token stream is measured against:
 `JSON.stringify` without replacer or indentation, following the
 SerializeJSONProperty / SerializeJSONArray / SerializeJSONObject steps of
 ECMAScript. It keeps the stack of containers being serialized as a list,
 builds each container's text by joining its members with commas, answers
 "undefined" for values that have no JSON text, and throws a TypeError when
 it meets a container already on the stack.
 */
module Reference {
  import opened Wrappers
  import opened Literals
  import opened Tokens
  import opened Values

  datatype Property = Text(s: string) | Absent | TypeError

  function Elems(stack: seq<Id>): set<Id> {
    set x | x in stack
  }

  lemma ElemsPush(stack: seq<Id>, id: Id)
    ensures Elems(stack + [id]) == Elems(stack) + {id}
  {
  }

  function Stringify(h: Heap, v: Value, stack: seq<Id>): (r: Property)
    requires Closed(h) && Bound(h, v)
    decreases |h.Keys - Elems(stack)|, 0, 0
  {
    match v
    case Null => Text("null")
    case Bool(b) => Text(if b then "true" else "false")
    case Num(n) => Text(IntText(n))
    case Str(s) => Text(Quote(s))
    case Symbol => Absent
    case Undefined => Absent
    case Ref(id) =>
      if id in stack then TypeError
      else
        ElemsPush(stack, id);
        FewerUnentered(h.Keys, Elems(stack), id);
        match h[id]
        case Arr(items) =>
          (match Elements(h, items, stack + [id])
           case None => TypeError
           case Some(parts) => Text("[" + Join(",", parts) + "]"))
        case Obj(entries) =>
          (match Members(h, entries, stack + [id])
           case None => TypeError
           case Some(parts) => Text("{" + Join(",", parts) + "}"))
  }

  /** The element texts of an array; an element without text reads "null". */
  function Elements(h: Heap, items: seq<Value>, stack: seq<Id>): (r: Option<seq<string>>)
    requires Closed(h) && AllBound(h, items)
    decreases |h.Keys - Elems(stack)|, 1, |items|
  {
    if items == [] then Some([])
    else
      var head := Stringify(h, items[0], stack);
      if head.TypeError? then None
      else Cons(if head.Text? then head.s else "null", Elements(h, items[1..], stack))
  }

  /** The `"key":value` texts of an object; a property whose value has no
      text contributes nothing. */
  function Members(h: Heap, entries: seq<(string, Value)>, stack: seq<Id>): (r: Option<seq<string>>)
    requires Closed(h) && EntriesBound(h, entries)
    decreases |h.Keys - Elems(stack)|, 1, |entries|
  {
    if entries == [] then Some([])
    else
      var head := Stringify(h, entries[0].1, stack);
      if head.TypeError? then None
      else
        var rest := Members(h, entries[1..], stack);
        if head.Absent? then rest else Cons(Quote(entries[0].0) + ":" + head.s, rest)
  }

  /** `JSON.stringify(v) ?? ""`, or None where it throws. */
  function ToJson(h: Heap, root: Value): Option<string>
    requires Closed(h) && Bound(h, root)
  {
    match Stringify(h, root, [])
    case Text(s) => Some(s)
    case Absent => Some("")
    case TypeError => None
  }

  // ------------------------------------------------- when it throws

  lemma {:induction false} ElementsFailAt(h: Heap, items: seq<Value>, stack: seq<Id>, k: nat)
    requires Closed(h) && AllBound(h, items)
    requires k < |items| && Stringify(h, items[k], stack).TypeError?
    ensures Elements(h, items, stack).None?
  {
    if k > 0 && !Stringify(h, items[0], stack).TypeError? {
      ElementsFailAt(h, items[1..], stack, k - 1);
    }
  }

  lemma {:induction false} MembersFailAt(h: Heap, entries: seq<(string, Value)>, stack: seq<Id>, k: nat)
    requires Closed(h) && EntriesBound(h, entries)
    requires k < |entries| && Stringify(h, entries[k].1, stack).TypeError?
    ensures Members(h, entries, stack).None?
  {
    if k > 0 && !Stringify(h, entries[0].1, stack).TypeError? {
      MembersFailAt(h, entries[1..], stack, k - 1);
    }
  }

  lemma {:induction false} ElementsFailure(h: Heap, items: seq<Value>, stack: seq<Id>) returns (k: nat)
    requires Closed(h) && AllBound(h, items)
    requires Elements(h, items, stack).None?
    ensures k < |items| && Stringify(h, items[k], stack).TypeError?
  {
    if Stringify(h, items[0], stack).TypeError? {
      k := 0;
    } else {
      var j := ElementsFailure(h, items[1..], stack);
      k := j + 1;
    }
  }

  lemma {:induction false} MembersFailure(h: Heap, entries: seq<(string, Value)>, stack: seq<Id>) returns (k: nat)
    requires Closed(h) && EntriesBound(h, entries)
    requires Members(h, entries, stack).None?
    ensures k < |entries| && Stringify(h, entries[k].1, stack).TypeError?
  {
    if Stringify(h, entries[0].1, stack).TypeError? {
      k := 0;
    } else {
      var j := MembersFailure(h, entries[1..], stack);
      k := j + 1;
    }
  }

  /** A chain from `p[0]` back onto the stack or onto itself makes the
      serialization of `p[0]` throw. */
  lemma {:induction false} PathThrows(h: Heap, p: seq<Id>, stack: seq<Id>)
    requires Closed(h) && IsPath(h, p) && p[|p| - 1] in stack + p[..|p| - 1]
    ensures Stringify(h, Ref(p[0]), stack).TypeError?
    decreases |p|
  {
    var id := p[0];
    if id !in stack {
      assert |p| > 1;
      var q := p[1..];
      var above := stack + [id];
      assert IsPath(h, q) by {
        forall i | 0 < i < |q|
          ensures Holds(h[q[i - 1]], q[i])
        {
          assert Holds(h[p[i]], p[i + 1]);
        }
      }
      assert stack + p[..|p| - 1] == above + q[..|q| - 1];
      PathThrows(h, q, above);
      assert Holds(h[id], q[0]) by { assert Holds(h[p[0]], p[1]); }
      match h[id]
      case Arr(items) =>
        var k :| 0 <= k < |items| && items[k] == Ref(q[0]);
        ElementsFailAt(h, items, above, k);
      case Obj(entries) =>
        var k :| 0 <= k < |entries| && entries[k].1 == Ref(q[0]);
        MembersFailAt(h, entries, above, k);
    }
  }

  /** The member of a container whose serialization made the container's
      own serialization throw. */
  lemma ThrowingChild(h: Heap, id: Id, stack: seq<Id>) returns (child: Value)
    requires Closed(h) && id in h && id !in stack
    requires Stringify(h, Ref(id), stack).TypeError?
    ensures Bound(h, child) && Stringify(h, child, stack + [id]).TypeError?
    ensures child.Ref? ==> Holds(h[id], child.id)
  {
    match h[id]
    case Arr(items) =>
      var k := ElementsFailure(h, items, stack + [id]);
      child := items[k];
    case Obj(entries) =>
      var k := MembersFailure(h, entries, stack + [id]);
      child := entries[k].1;
  }

  /** A chain from a held container extends by its holder. */
  lemma ExtendPath(h: Heap, id: Id, q: seq<Id>, stack: seq<Id>)
    requires IsPath(h, q) && id in h && Holds(h[id], q[0])
    requires q[|q| - 1] in stack + [id] + q[..|q| - 1]
    ensures ReachesStack(h, id, stack)
  {
    var p := [id] + q;
    assert IsPath(h, p) by {
      forall i | 0 < i < |p|
        ensures Holds(h[p[i - 1]], p[i])
      {
        if i > 1 {
          assert Holds(h[q[i - 2]], q[i - 1]);
        }
      }
    }
    assert stack + p[..|p| - 1] == stack + [id] + q[..|q| - 1];
  }

  /** A TypeError always has such a chain behind it. */
  lemma {:induction false} ThrowHasPath(h: Heap, v: Value, stack: seq<Id>)
    requires Closed(h) && Bound(h, v) && Stringify(h, v, stack).TypeError?
    ensures v.Ref? && ReachesStack(h, v.id, stack)
    decreases |h.Keys - Elems(stack)|
  {
    var id := v.id;
    if id in stack {
      var p := [id];
      assert IsPath(h, p) && p[|p| - 1] in stack + p[..|p| - 1];
    } else {
      ElemsPush(stack, id);
      FewerUnentered(h.Keys, Elems(stack), id);
      var child := ThrowingChild(h, id, stack);
      ThrowHasPath(h, child, stack + [id]);
      var q :| IsPath(h, q) && q[0] == child.id && q[|q| - 1] in stack + [id] + q[..|q| - 1];
      ExtendPath(h, id, q, stack);
    }
  }

  /** `JSON.stringify` throws exactly when a cycle of containment is reachable
      from the root. */
  lemma ToJsonThrowsIffCyclic(h: Heap, root: Value)
    requires Closed(h) && Bound(h, root)
    ensures ToJson(h, root).None? <==> root.Ref? && CyclicFrom(h, root.id)
  {
    if ToJson(h, root).None? {
      ThrowHasPath(h, root, []);
      var p :| IsPath(h, p) && p[0] == root.id && p[|p| - 1] in [] + p[..|p| - 1];
      assert [] + p[..|p| - 1] == p[..|p| - 1];
    }
    if root.Ref? && CyclicFrom(h, root.id) {
      var p :| IsPath(h, p) && p[0] == root.id && p[|p| - 1] in p[..|p| - 1];
      assert [] + p[..|p| - 1] == p[..|p| - 1];
      PathThrows(h, p, []);
    }
  }
}
