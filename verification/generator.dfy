/**
 The lazy token generator of `serializer` / `yieldSerialize`. A run of the
 generator is the list of tokens it yields, ending either normally (with the
 cache it leaves behind) or in the "Circular dependency detected" throw
 (with the tokens it yielded before throwing). The `WeakSet` cache is the
 set of container ids threaded through the walk: a container is added on
 entry (throwing if already present) and deleted on normal exit.
 */
module Generator {
  import opened Literals
  import opened Tokens
  import opened Values

  datatype Run =
    | Done(tokens: seq<string>, cache: set<Id>)
    | Circular(tokens: seq<string>)

  predicate NonEmptyTokens(ts: seq<string>) {
    forall i :: 0 <= i < |ts| ==> ts[i] != ""
  }

  lemma NonEmptyAppend(a: seq<string>, b: seq<string>)
    requires NonEmptyTokens(a) && NonEmptyTokens(b)
    ensures NonEmptyTokens(a + b)
  {
  }

  /** Tokens yielded before a sub-run, which then carries on as that run. */
  function Then(prefix: seq<string>, r: Run): Run
  {
    match r
    case Done(t, c) => Done(prefix + t, c)
    case Circular(t) => Circular(prefix + t)
  }

  function Separator(first: bool): seq<string> {
    if first then [] else [","]
  }

  function YieldSerialize(h: Heap, v: Value, inArray: bool, cache: set<Id>): (r: Run)
    requires Closed(h) && Bound(h, v)
    ensures r.Done? ==> r.cache == cache
    ensures NonEmptyTokens(r.tokens)
    ensures r.Done? && r.tokens == [] <==> !inArray && (v.Symbol? || v.Undefined?)
    ensures r.Circular? ==> v.Ref?
    ensures r.Circular? && r.tokens == [] <==> v.Ref? && v.id in cache
    decreases |h.Keys - cache|, 0, 1
  {
    match v
    case Null => Done(["null"], cache)
    case Bool(b) => Done([if b then "true" else "false"], cache)
    case Num(n) => Done([IntText(n)], cache)
    case Str(s) => Done([Quote(s)], cache)
    case Symbol => Done(if inArray then ["null"] else [], cache)
    case Undefined => Done(if inArray then ["null"] else [], cache)
    case Ref(id) =>
      if id in cache then Circular([])
      else if h[id].Arr? then YieldArray(h, id, cache)
      else YieldObject(h, id, cache)
  }

  /** The array branch: add to the cache, "[", the elements, "]", and
      delete from the cache again. */
  function YieldArray(h: Heap, id: Id, cache: set<Id>): (r: Run)
    requires Closed(h) && id in h && h[id].Arr? && id !in cache
    ensures r.Done? ==> r.cache == cache
    ensures NonEmptyTokens(r.tokens)
    ensures r.tokens != [] && r.tokens[0] == "["
    decreases |h.Keys - cache|, 0, 0
  {
    FewerUnentered(h.Keys, cache, id);
    var inner := YieldItems(h, h[id].items, cache + {id}, true);
    NonEmptyAppend(["["], inner.tokens);
    if inner.Circular? then Circular(["["] + inner.tokens)
    else
      NonEmptyAppend(["["] + inner.tokens, ["]"]);
      Done(["["] + inner.tokens + ["]"], inner.cache - {id})
  }

  /** The object branch: add to the cache, "{", the properties, "}", and
      delete from the cache again. */
  function YieldObject(h: Heap, id: Id, cache: set<Id>): (r: Run)
    requires Closed(h) && id in h && h[id].Obj? && id !in cache
    ensures r.Done? ==> r.cache == cache
    ensures NonEmptyTokens(r.tokens)
    ensures r.tokens != [] && r.tokens[0] == "{"
    decreases |h.Keys - cache|, 0, 0
  {
    FewerUnentered(h.Keys, cache, id);
    var inner := YieldEntries(h, h[id].entries, cache + {id}, true);
    NonEmptyAppend(["{"], inner.tokens);
    if inner.Circular? then Circular(["{"] + inner.tokens)
    else
      NonEmptyAppend(["{"] + inner.tokens, ["}"]);
      Done(["{"] + inner.tokens + ["}"], inner.cache - {id})
  }

  /** The loop over an array's elements: a comma before every element but
      the first, then the element's tokens. */
  function YieldItems(h: Heap, items: seq<Value>, cache: set<Id>, first: bool): (r: Run)
    requires Closed(h) && AllBound(h, items)
    ensures r.Done? ==> r.cache == cache
    ensures NonEmptyTokens(r.tokens)
    decreases |h.Keys - cache|, 1, |items|
  {
    if items == [] then Done([], cache)
    else
      var head := YieldSerialize(h, items[0], true, cache);
      var lead := Separator(first) + head.tokens;
      NonEmptyAppend(Separator(first), head.tokens);
      if head.Circular? then Circular(lead)
      else
        var rest := YieldItems(h, items[1..], head.cache, false);
        NonEmptyAppend(lead, rest.tokens);
        Then(lead, rest)
  }

  /** The loop over an object's keys. The value's generator is started and
      its first token peeked before anything is yielded for the key: a value
      without tokens drops the key, and a value that throws at once throws
      before the comma and the key are yielded. Otherwise the comma, the key
      and ":" come out, then the peeked token and the rest of the value's
      run, which together are the whole run `t`. */
  function YieldEntries(h: Heap, entries: seq<(string, Value)>, cache: set<Id>, first: bool): (r: Run)
    requires Closed(h) && EntriesBound(h, entries)
    ensures r.Done? ==> r.cache == cache
    ensures NonEmptyTokens(r.tokens)
    decreases |h.Keys - cache|, 1, |entries|
  {
    if entries == [] then Done([], cache)
    else
      var (key, value) := entries[0];
      var head := YieldSerialize(h, value, false, cache);
      var t := head.tokens;
      var named := Separator(first) + [Quote(key), ":"];
      NonEmptyAppend(named, t);
      if head.Circular? then
        if t == [] then Circular([]) else Circular(named + t)
      else if t == [] then YieldEntries(h, entries[1..], head.cache, first)
      else
        var rest := YieldEntries(h, entries[1..], head.cache, false);
        NonEmptyAppend(named + t, rest.tokens);
        Then(named + t, rest)
  }

  /** `serializer(source)`: a fresh generator with an empty cache. */
  function Serializer(h: Heap, root: Value): (r: Run)
    requires Closed(h) && Bound(h, root)
    ensures r.Done? ==> r.cache == {}
    ensures r.Done? && r.tokens == [] <==> root.Symbol? || root.Undefined?
  {
    YieldSerialize(h, root, false, {})
  }

  // ------------------------------------------------- layout of containers

  /** What each element of an array yields when entered with `cache`. */
  function ItemRuns(h: Heap, items: seq<Value>, cache: set<Id>): (runs: seq<seq<string>>)
    requires Closed(h) && AllBound(h, items)
    ensures |runs| == |items|
    ensures forall i :: 0 <= i < |items| ==> runs[i] == YieldSerialize(h, items[i], true, cache).tokens
  {
    if items == [] then [] else [YieldSerialize(h, items[0], true, cache).tokens] + ItemRuns(h, items[1..], cache)
  }

  /** Key, colon and value tokens of each property whose value yields
      something when entered with `cache`, in key order. */
  function MemberRuns(h: Heap, entries: seq<(string, Value)>, cache: set<Id>): seq<seq<string>>
    requires Closed(h) && EntriesBound(h, entries)
  {
    if entries == [] then []
    else
      var t := YieldSerialize(h, entries[0].1, false, cache).tokens;
      (if t == [] then [] else [[Quote(entries[0].0), ":"] + t]) + MemberRuns(h, entries[1..], cache)
  }

  lemma {:induction false} ItemsLayout(h: Heap, items: seq<Value>, cache: set<Id>, first: bool)
    requires Closed(h) && AllBound(h, items)
    requires YieldItems(h, items, cache, first).Done?
    ensures YieldItems(h, items, cache, first).tokens == Joined(first, [","], ItemRuns(h, items, cache))
    ensures forall i :: 0 <= i < |items| ==> YieldSerialize(h, items[i], true, cache).Done?
  {
    if items != [] {
      var head := YieldSerialize(h, items[0], true, cache);
      var rest := YieldItems(h, items[1..], cache, false);
      var later := ItemRuns(h, items[1..], cache);
      assert YieldItems(h, items, cache, first) == Then(Separator(first) + head.tokens, rest);
      ItemsLayout(h, items[1..], cache, false);
      assert ItemRuns(h, items, cache) == [head.tokens] + later;
      JoinedCons(first, [","], head.tokens, later);
    }
  }

  /** One unfolding of the property loop: a value that throws ends the
      loop throwing, a value without tokens is skipped, and any other value
      is yielded after its key. */
  lemma EntriesStep(h: Heap, entries: seq<(string, Value)>, cache: set<Id>, first: bool)
    requires Closed(h) && EntriesBound(h, entries) && entries != []
    ensures var head := YieldSerialize(h, entries[0].1, false, cache);
            var r := YieldEntries(h, entries, cache, first);
            && (head.Circular? ==> r.Circular?)
            && (head.Done? && head.tokens == [] ==> r == YieldEntries(h, entries[1..], cache, first))
            && (head.Done? && head.tokens != [] ==>
                  r == Then(Separator(first) + [Quote(entries[0].0), ":"] + head.tokens, YieldEntries(h, entries[1..], cache, false)))
  {
  }

  /** The tokens of an included property followed by the later members. */
  lemma IncludedLayout(first: bool, key: string, t: seq<string>, rest: seq<string>, later: seq<seq<string>>)
    requires rest == SepEach([","], later)
    ensures Separator(first) + [key, ":"] + t + rest == Joined(first, [","], [[key, ":"] + t] + later)
  {
    JoinedCons(first, [","], [key, ":"] + t, later);
    assert Separator(first) + [key, ":"] + t == Separator(first) + ([key, ":"] + t);
  }

  lemma {:induction false} EntriesLayout(h: Heap, entries: seq<(string, Value)>, cache: set<Id>, first: bool)
    requires Closed(h) && EntriesBound(h, entries)
    requires YieldEntries(h, entries, cache, first).Done?
    ensures YieldEntries(h, entries, cache, first).tokens == Joined(first, [","], MemberRuns(h, entries, cache))
  {
    if entries != [] {
      var head := YieldSerialize(h, entries[0].1, false, cache);
      assert head.Done?;
      EntriesStep(h, entries, cache, first);
      if head.tokens == [] {
        EntriesLayout(h, entries[1..], cache, first);
        assert MemberRuns(h, entries, cache) == MemberRuns(h, entries[1..], cache);
      } else {
        assert MemberRuns(h, entries, cache) == [[Quote(entries[0].0), ":"] + head.tokens] + MemberRuns(h, entries[1..], cache);
        EntriesLayout(h, entries[1..], cache, false);
        IncludedLayout(first, Quote(entries[0].0), head.tokens,
                       YieldEntries(h, entries[1..], cache, false).tokens, MemberRuns(h, entries[1..], cache));
      }
    }
  }

  /** An array that completes yields "[", each element's tokens separated by
      single commas, and "]". Every element is serialized from the same cache
      (the entry cache plus the array itself) and yields at least one token,
      so an element held twice yields the same tokens at both positions. */
  lemma ArrayLayout(h: Heap, id: Id, cache: set<Id>)
    requires Closed(h) && id in h && h[id].Arr? && id !in cache
    requires YieldArray(h, id, cache).Done?
    ensures var runs := ItemRuns(h, h[id].items, cache + {id});
            && YieldArray(h, id, cache).tokens == ["["] + Join([","], runs) + ["]"]
            && forall i :: 0 <= i < |runs| ==> runs[i] != []
  {
    ItemsLayout(h, h[id].items, cache + {id}, true);
  }

  /** An object that completes yields "{", the key, colon and value tokens of
      every property whose value yields something, in key order and
      separated by single commas, and "}". */
  lemma ObjectLayout(h: Heap, id: Id, cache: set<Id>)
    requires Closed(h) && id in h && h[id].Obj? && id !in cache
    requires YieldObject(h, id, cache).Done?
    ensures YieldObject(h, id, cache).tokens
            == ["{"] + Join([","], MemberRuns(h, h[id].entries, cache + {id})) + ["}"]
  {
    EntriesLayout(h, h[id].entries, cache + {id}, true);
  }
}
