/**
 The token generator against the whole-document serializer: with the cache
 holding exactly the containers on the stack, the generator throws exactly
 when `JSON.stringify` throws, and otherwise its tokens spell out the text
 `JSON.stringify` returns. Together with the cycle characterisation of the
 reference serializer this says that generation fails exactly on inputs
 from which a cycle is reachable, and that shared but acyclic containers
 are serialized in full wherever they occur.
 */
module Equivalence {
  import opened Wrappers
  import opened Literals
  import opened Tokens
  import opened Values
  import opened Reference
  import opened Generator

  /** The text of one array element followed by the later elements. */
  lemma ElementText(first: bool, t: seq<string>, later: seq<string>, part: string, parts: seq<string>)
    requires Concat(t) == part && Concat(later) == SepEach(",", parts)
    ensures Concat(Separator(first) + t + later) == Joined(first, ",", [part] + parts)
  {
    ConcatAppend(Separator(first) + t, later);
    ConcatAppend(Separator(first), t);
  }

  /** The text of one included object member followed by the later members. */
  lemma MemberText(first: bool, key: string, t: seq<string>, later: seq<string>, s: string, parts: seq<string>)
    requires Concat(t) == s && Concat(later) == SepEach(",", parts)
    ensures Concat(Separator(first) + [Quote(key), ":"] + t + later)
            == Joined(first, ",", [Quote(key) + ":" + s] + parts)
  {
    var named := Separator(first) + [Quote(key), ":"];
    ConcatAppend(named + t, later);
    ConcatAppend(named, t);
    ConcatAppend(Separator(first), [Quote(key), ":"]);
    assert Concat([Quote(key), ":"]) == Quote(key) + ":" by {
      assert [Quote(key), ":"][1..] == [":"];
      assert Concat([":"]) == ":";
    }
  }

  /** A member loop's run against the member texts of the reference:
      throwing together, and otherwise the same text. */
  predicate LoopAgrees(r: Run, p: Option<seq<string>>, first: bool) {
    && (r.Circular? <==> p.None?)
    && (p.Some? ==> Concat(r.tokens) == Joined(first, ",", p.value))
  }

  /** An included property in front of agreeing later members agrees. */
  lemma IncludedAgrees(first: bool, key: string, t: seq<string>, s: string, rest: Run, later: Option<seq<string>>)
    requires Concat(t) == s && LoopAgrees(rest, later, false)
    ensures LoopAgrees(Then(Separator(first) + [Quote(key), ":"] + t, rest), Cons(Quote(key) + ":" + s, later), first)
  {
    if later.Some? {
      MemberText(first, key, t, rest.tokens, s, later.value);
    }
  }

  /** The text of a container's tokens: its brackets around its members. */
  lemma Bracketed(open: string, t: seq<string>, close: string)
    ensures Concat([open] + t + [close]) == open + Concat(t) + close
  {
    ConcatAppend([open] + t, [close]);
    ConcatAppend([open], t);
    assert Concat([close]) == close;
  }

  lemma {:induction false} Agree(h: Heap, v: Value, inArray: bool, stack: seq<Id>)
    requires Closed(h) && Bound(h, v)
    ensures var r := YieldSerialize(h, v, inArray, Elems(stack));
            var p := Stringify(h, v, stack);
            && (r.Circular? <==> p.TypeError?)
            && (p.Text? ==> r.Done? && Concat(r.tokens) == p.s)
            && (p.Text? && !v.Ref? ==> r.tokens == [p.s])
            && (p.Absent? ==> r.Done? && r.tokens == (if inArray then ["null"] else []))
    decreases |h.Keys - Elems(stack)|, 0, 1
  {
    if v.Ref? && v.id !in stack {
      if h[v.id].Arr? {
        AgreeArray(h, v.id, stack);
      } else {
        AgreeObject(h, v.id, stack);
      }
    }
  }

  lemma {:induction false} AgreeArray(h: Heap, id: Id, stack: seq<Id>)
    requires Closed(h) && id in h && h[id].Arr? && id !in stack
    ensures var r := YieldArray(h, id, Elems(stack));
            var p := Stringify(h, Ref(id), stack);
            && (r.Circular? <==> p.TypeError?)
            && (p.Text? ==> r.Done? && Concat(r.tokens) == p.s)
    decreases |h.Keys - Elems(stack)|, 0, 0
  {
    ElemsPush(stack, id);
    FewerUnentered(h.Keys, Elems(stack), id);
    AgreeItems(h, h[id].items, stack + [id], true);
    var inner := YieldItems(h, h[id].items, Elems(stack) + {id}, true);
    Bracketed("[", inner.tokens, "]");
  }

  lemma {:induction false} AgreeObject(h: Heap, id: Id, stack: seq<Id>)
    requires Closed(h) && id in h && h[id].Obj? && id !in stack
    ensures var r := YieldObject(h, id, Elems(stack));
            var p := Stringify(h, Ref(id), stack);
            && (r.Circular? <==> p.TypeError?)
            && (p.Text? ==> r.Done? && Concat(r.tokens) == p.s)
    decreases |h.Keys - Elems(stack)|, 0, 0
  {
    ElemsPush(stack, id);
    FewerUnentered(h.Keys, Elems(stack), id);
    AgreeEntries(h, h[id].entries, stack + [id], true);
    var inner := YieldEntries(h, h[id].entries, Elems(stack) + {id}, true);
    Bracketed("{", inner.tokens, "}");
  }

  lemma {:induction false} AgreeItems(h: Heap, items: seq<Value>, stack: seq<Id>, first: bool)
    requires Closed(h) && AllBound(h, items)
    ensures var r := YieldItems(h, items, Elems(stack), first);
            var p := Elements(h, items, stack);
            && (r.Circular? <==> p.None?)
            && (p.Some? ==> Concat(r.tokens) == Joined(first, ",", p.value))
    decreases |h.Keys - Elems(stack)|, 1, |items|
  {
    if items != [] {
      Agree(h, items[0], true, stack);
      AgreeItems(h, items[1..], stack, false);
      var head := YieldSerialize(h, items[0], true, Elems(stack));
      var p := Stringify(h, items[0], stack);
      var rest := YieldItems(h, items[1..], Elems(stack), false);
      var later := Elements(h, items[1..], stack);
      if head.Done? && later.Some? {
        ElementText(first, head.tokens, rest.tokens, if p.Text? then p.s else "null", later.value);
      }
    }
  }

  lemma {:induction false} AgreeEntries(h: Heap, entries: seq<(string, Value)>, stack: seq<Id>, first: bool)
    requires Closed(h) && EntriesBound(h, entries)
    ensures LoopAgrees(YieldEntries(h, entries, Elems(stack), first), Members(h, entries, stack), first)
    decreases |h.Keys - Elems(stack)|, 1, |entries|
  {
    if entries != [] {
      var (key, value) := entries[0];
      Agree(h, value, false, stack);
      var head := YieldSerialize(h, value, false, Elems(stack));
      EntriesStep(h, entries, Elems(stack), first);
      if head.Done? {
        if head.tokens == [] {
          AgreeEntries(h, entries[1..], stack, first);
        } else {
          AgreeEntries(h, entries[1..], stack, false);
          IncludedAgrees(first, key, head.tokens, Stringify(h, value, stack).s,
                         YieldEntries(h, entries[1..], Elems(stack), false), Members(h, entries[1..], stack));
        }
      }
    }
  }

  /** The tokens of a run spell out `JSON.stringify(root) ?? ""`, and the run
      throws exactly where `JSON.stringify` throws. */
  lemma SerializerMatchesJson(h: Heap, root: Value)
    requires Closed(h) && Bound(h, root)
    ensures Serializer(h, root).Done? <==> ToJson(h, root).Some?
    ensures Serializer(h, root).Done? ==> Concat(Serializer(h, root).tokens) == ToJson(h, root).value
  {
    assert Elems([]) == {};
    Agree(h, root, false, []);
  }

  /** Generation throws exactly when a cycle of containment is reachable
      from the root; in particular every acyclic heap, sharing or not, is
      serialized to the end. */
  lemma SerializerThrowsIffCyclic(h: Heap, root: Value)
    requires Closed(h) && Bound(h, root)
    ensures Serializer(h, root).Circular? <==> root.Ref? && CyclicFrom(h, root.id)
  {
    SerializerMatchesJson(h, root);
    ToJsonThrowsIffCyclic(h, root);
  }

  /** An array holding itself, or an object holding itself, throws. */
  lemma SelfReferenceThrows(h: Heap, id: Id)
    requires Closed(h) && id in h && Holds(h[id], id)
    ensures Serializer(h, Ref(id)).Circular?
  {
    var p := [id, id];
    assert Holds(h[p[0]], p[1]);
    assert p[..|p| - 1] == [id];
    SerializerThrowsIffCyclic(h, Ref(id));
  }
}
